/**
 The replies to netlink requests (syscall/enter.c:640-676, 762-1263): the interfaces and addresses of
 the host, its routes, or an acknowledgement.
 */
module NetlinkReply {
  import opened Wrappers
  import opened Words
  import opened TraceeMemory
  import opened NetlinkMessages

  type Name = seq<nat>

  const MAX_REPLY: nat := 8192
  const RTM_GETLINK: nat := 18
  const RTM_GETADDR: nat := 22
  const RTM_GETROUTE: nat := 26
  const AF_INET6: nat := 10
  const ARPHRD_ETHER: nat := 1
  const RT_SCOPE_HOST: nat := 254
  const IFNAMSIZ: nat := 16
  const ENODEV: nat := 19

  // ----- What the request asks for -----

  function Signed(w: nat): int {
    if w < 0x8000_0000 then w else w - 0x1_0000_0000
  }

  /** The characters before the terminator. */
  function CString(b: seq<nat>): seq<nat> {
    if b == [] || b[0] == 0 then [] else [b[0]] + CString(b[1..])
  }

  function NameIn(data: seq<nat>): Name {
    CString(if |data| < IFNAMSIZ then data else data[..IFNAMSIZ - 1])
  }

  /** The last attribute that names an interface. */
  function LastName(attributes: seq<Attribute>): Option<Name> {
    if attributes == [] then None
    else
      var last := attributes[|attributes| - 1];
      if last.kind == IFLA_IFNAME then Some(NameIn(last.data)) else LastName(attributes[..|attributes| - 1])
  }

  datatype Target = Target(index: int, name: Option<Name>)

  function TargetOf(req: seq<nat>): Target {
    if |req| < HEADER + 16 then Target(0, None)
    else Target(Signed(Value(req[20..24])), LastName(Attributes(req[HEADER + 16..])))
  }

  /** The loop of nl_request_link_target, which nl_request_is_loopback repeats. */
  method RequestedLink(req: seq<nat>) returns (t: Target)
    ensures t == TargetOf(req)
  {
    if |req| < HEADER + 16 {
      return Target(0, None);
    }
    var rest := req[HEADER + 16..];
    var name: Option<Name> := None;
    ghost var all := Attributes(rest);
    ghost var seen: seq<Attribute> := [];
    SplitsStart(all);
    hide Attributes, Value, NameIn, First, Splits;
    while |rest| >= ATTRIBUTE && ATTRIBUTE <= Value(rest[0..2]) <= |rest|
      invariant name == LastName(seen) && Splits(all, seen, Attributes(rest))
      decreases |rest|
    {
      var length := Value(rest[0..2]);
      var attribute := First(rest, length);
      if attribute.kind == IFLA_IFNAME {
        name := Some(NameIn(attribute.data));
      }
      var next := rest[if Align(length) > |rest| then |rest| else Align(length)..];
      NextAttribute(rest, length, next);
      SplitsMore(all, seen, attribute, Attributes(next));
      LastNameMore(seen, attribute);
      seen := seen + [attribute];
      rest := next;
    }
    NoAttribute(rest);
    SplitsEnd(all, seen);
    return Target(Signed(Value(req[20..24])), name);
  }

  lemma LastNameMore(attributes: seq<Attribute>, a: Attribute)
    ensures LastName(attributes + [a]) == if a.kind == IFLA_IFNAME then Some(NameIn(a.data)) else LastName(attributes)
  {
    assert (attributes + [a])[..|attributes|] == attributes;
  }

  lemma NoAttribute(b: seq<nat>)
    requires |b| < ATTRIBUTE || Value(b[0..2]) < ATTRIBUTE || Value(b[0..2]) > |b|
    ensures Attributes(b) == []
  {
  }

  lemma NextAttribute(b: seq<nat>, length: nat, next: seq<nat>)
    requires |b| >= ATTRIBUTE && ATTRIBUTE <= length == Value(b[0..2]) <= |b|
    requires next == b[if Align(length) > |b| then |b| else Align(length)..]
    ensures Attributes(b) == [First(b, length)] + Attributes(next)
  {
  }

  predicate IsLoopback(t: Target) {
    if t.name.Some? then t.name.value == [108, 111] else t.index == 0 || t.index == 1
  }

  // ----- The host -----

  datatype SocketAddress =
    | Absent
    | LinkLayer(index: nat, kind: nat, hardware: seq<nat>)
    | Inet(family: nat, bytes: seq<nat>, prefix: nat, scope: nat)

  /** An entry of getifaddrs(3). */
  datatype Interface = Interface(name: Option<Name>, flags: nat, address: SocketAddress)

  /** What the host answers: getifaddrs(3), if_nametoindex(3), and the ioctls for MTU and hardware address. */
  datatype Host = Host(interfaces: Option<seq<Interface>>, index: Name -> nat, mtu: Name -> Option<nat>,
                       hardware: Name -> Option<(nat, seq<nat>)>)

  function Interfaces(host: Host): seq<Interface> {
    if host.interfaces.Some? then host.interfaces.value else []
  }

  ghost predicate SaneList(list: seq<Interface>) {
    forall i :: 0 <= i < |list| ==> SaneInterface(list[i])
  }

  ghost predicate SaneHost(host: Host) {
    && SaneList(Interfaces(host))
    && (forall n :: host.hardware(n).Some? ==> |host.hardware(n).value.1| == 6)
  }

  predicate SaneInterface(i: Interface) {
    && (i.name.Some? ==> |i.name.value| < IFNAMSIZ)
    && (i.address.Inet? ==> |i.address.bytes| <= 16)
  }

  /** What is known of an interface; the link-layer entry has precedence. */
  function Described(host: Host, name: Name, i: Interface): Link {
    var loop := Has(i.flags, IFF_LOOPBACK);
    var mtu := if host.mtu(name).Some? then host.mtu(name).value else if loop then 65536 else 1500;
    var index := if i.address.LinkLayer? && i.address.index != 0 then i.address.index else host.index(name);
    var kind := if i.address.LinkLayer? then i.address.kind else if loop then ARPHRD_LOOPBACK else ARPHRD_ETHER;
    if i.address.LinkLayer? && 0 < |i.address.hardware| <= 8 then
      Link(index, kind, i.flags, mtu, name, i.address.hardware)
    else if host.hardware(name).Some? then
      Link(index, host.hardware(name).value.0, i.flags, mtu, name, host.hardware(name).value.1)
    else
      Link(index, kind, i.flags, mtu, name, [])
  }

  lemma DescribedIsSane(host: Host, i: Interface)
    requires SaneHost(host) && SaneInterface(i) && i.name.Some?
    ensures SaneLink(Described(host, i.name.value, i)) && Described(host, i.name.value, i).name == i.name.value
  {
  }

  // ----- Links of the host -----

  datatype Query = Dump | Named(name: Name) | Indexed(index: int) | Any

  predicate Wanted(q: Query, l: Link) {
    match q
    case Dump => true
    case Named(n) => l.name == n
    case Indexed(k) => l.index == k
    case Any => true
  }

  function Flags(dump: bool): nat {
    if dump then NLM_F_MULTI else 0
  }

  /** The links of a reply: each name once, those that are wanted, the first one only unless all are. */
  function Chosen(host: Host, q: Query, stamp: Stamp, list: seq<Interface>, seen: seq<Name>, room: int): seq<Link>
    decreases |list|, 1
  {
    if list == [] then []
    else if list[0].name.None? || list[0].name.value in seen then Chosen(host, q, stamp, list[1..], seen, room)
    else Taken(host, q, stamp, list[0].name.value, list, if |seen| < 64 then seen + [list[0].name.value] else seen, room)
  }

  /** The first interface has a new name. */
  function Taken(host: Host, q: Query, stamp: Stamp, name: Name, list: seq<Interface>, known: seq<Name>, room: int)
    : seq<Link>
    requires list != []
    decreases |list|, 0
  {
    var l := Described(host, name, list[0]);
    if !Wanted(q, l) then Chosen(host, q, stamp, list[1..], known, room)
    else if room < 256 then []
    else if !q.Dump? then [l]
    else [l] + Chosen(host, q, stamp, list[1..], known, room - |NewLink(Flags(true), stamp, l, 256)|)
  }

  lemma ChosenStep(host: Host, q: Query, stamp: Stamp, list: seq<Interface>, seen: seq<Name>, room: int)
    requires list != []
    ensures Chosen(host, q, stamp, list, seen, room) ==
      if list[0].name.None? || list[0].name.value in seen then Chosen(host, q, stamp, list[1..], seen, room)
      else Taken(host, q, stamp, list[0].name.value, list, if |seen| < 64 then seen + [list[0].name.value] else seen, room)
  {
  }

  lemma Sane(list: seq<Interface>)
    requires SaneList(list) && list != []
    ensures SaneInterface(list[0]) && SaneList(list[1..])
  {
  }

  function LinkMessages(q: Query, stamp: Stamp, ls: seq<Link>): (ms: seq<seq<nat>>)
    ensures |ms| == |ls|
  {
    seq(|ls|, i requires 0 <= i < |ls| => NewLink(Flags(q.Dump?), stamp, ls[i], 256))
  }

  lemma {:induction false} RoomDoesNotMatter(fixed: seq<nat>, attributes: seq<Attribute>, r: nat, s: nat)
    requires |fixed| + TotalSize(attributes) <= r && |fixed| + TotalSize(attributes) <= s
    ensures ExtendedAll(fixed, r, attributes) == ExtendedAll(fixed, s, attributes)
    ensures |ExtendedAll(fixed, r, attributes)| == |fixed| + TotalSize(attributes)
    decreases |attributes|
  {
    if attributes != [] {
      RoomDoesNotMatter(fixed, attributes[..|attributes| - 1], r, s);
    }
  }

  lemma SameLink(flags: nat, stamp: Stamp, l: Link, room: nat)
    requires SaneLink(l) && room >= 256
    ensures NewLink(flags, stamp, l, room) == NewLink(flags, stamp, l, 256)
    ensures 0 < |NewLink(flags, stamp, l, 256)| <= 152 && |NewLink(flags, stamp, l, 256)| % 4 == 0
  {
    hide LinkAttributes, LinkInfo, Bytes, TotalSize, ExtendedAll;
    LinkSize(l);
    RoomDoesNotMatter(LinkInfo(l), LinkAttributes(l), room - HEADER, 256 - HEADER);
  }

  lemma SameAddress(flags: nat, stamp: Stamp, a: Address, room: nat)
    requires SaneAddress(a) && room >= 256
    ensures NewAddress(flags, stamp, a, room) == NewAddress(flags, stamp, a, 256)
    ensures 0 < |NewAddress(flags, stamp, a, 256)| <= 152 && |NewAddress(flags, stamp, a, 256)| % 4 == 0
  {
    hide AddressAttributes, AddressInfo, Bytes, TotalSize, ExtendedAll;
    AddressSize(a);
    RoomDoesNotMatter(AddressInfo(a), AddressAttributes(a), room - HEADER, 256 - HEADER);
  }

  lemma JoinedOfNone(ms: seq<seq<nat>>)
    requires |ms| == 0
    ensures Joined(ms) == []
  {
  }

  lemma JoinedMore(ms: seq<seq<nat>>, m: seq<nat>)
    requires |m| % 4 == 0
    ensures Joined(ms + [m]) == Joined(ms) + m
  {
    assert (ms + [m])[..|ms|] == ms;
    assert Padded(m) == m;
  }

  lemma MoreLinks(q: Query, stamp: Stamp, ls: seq<Link>, l: Link)
    ensures LinkMessages(q, stamp, ls + [l]) == LinkMessages(q, stamp, ls) + [NewLink(Flags(q.Dump?), stamp, l, 256)]
  {
  }

  /** One more link, where 256 bytes are free. */
  method AppendLink(buf: array<nat>, off: nat, q: Query, stamp: Stamp, l: Link, ghost before: seq<Link>) returns (end: nat)
    requires off + 256 <= buf.Length && SaneLink(l) && buf[..off] == Joined(LinkMessages(q, stamp, before))
    modifies buf
    ensures off < end == off + |NewLink(Flags(q.Dump?), stamp, l, 256)| <= off + 152
    ensures buf[..end] == Joined(LinkMessages(q, stamp, before + [l]))
  {
    hide NewLink, Described;
    SameLink(Flags(q.Dump?), stamp, l, buf.Length - off);
    JoinedMore(LinkMessages(q, stamp, before), NewLink(Flags(q.Dump?), stamp, l, 256));
    MoreLinks(q, stamp, before, l);
    end := BuildLink(buf, off, Flags(q.Dump?), stamp, l);
    assert |buf[..end]| == end;
  }

  /** One turn for an interface with a new name; `stop` when no more is wanted. */
  method TakeLink(buf: array<nat>, start: nat, host: Host, stamp: Stamp, q: Query, name: Name, list: seq<Interface>,
                  known: seq<Name>, ghost all: seq<Link>, ghost before: seq<Link>)
    returns (off: nat, stop: bool, ghost chosen: seq<Link>)
    requires list != [] && SaneHost(host) && SaneInterface(list[0]) && list[0].name == Some(name) && start <= buf.Length
    requires Splits(all, before, Taken(host, q, stamp, name, list, known, buf.Length - start))
    requires buf[..start] == Joined(LinkMessages(q, stamp, before))
    modifies buf
    ensures (off == start && chosen == before) || (start < off && off + 104 <= buf.Length && |chosen| == |before| + 1)
    ensures Splits(all, chosen, if stop then [] else Chosen(host, q, stamp, list[1..], known, buf.Length - off))
    ensures buf[..off] == Joined(LinkMessages(q, stamp, chosen))
  {
    hide NewLink, Described, Joined, LinkMessages, Splits, SaneLink, Chosen;
    off, stop, chosen := start, false, before;
    var l := Described(host, name, list[0]);
    if !Wanted(q, l) {
      return;
    }
    if off + 256 > buf.Length {
      stop := true;
      return;
    }
    DescribedIsSane(host, list[0]);
    off := AppendLink(buf, off, q, stamp, l, chosen);
    chosen := before + [l];
    if !q.Dump? {
      stop := true;
      assert [l] + [] == [l];
      SplitsMore(all, before, l, []);
    } else {
      SplitsMore(all, before, l, Chosen(host, q, stamp, list[1..], known, buf.Length - off));
    }
  }

  /** build_host_links. */
  method BuildHostLinks(buf: array<nat>, host: Host, stamp: Stamp, q: Query) returns (off: nat, built: nat)
    requires SaneHost(host)
    modifies buf
    ensures built == |Chosen(host, q, stamp, Interfaces(host), [], buf.Length)|
    ensures off <= buf.Length && (built > 0 ==> off + 104 <= buf.Length) && (built == 0 ==> off == 0)
    ensures buf[..off] == Joined(LinkMessages(q, stamp, Chosen(host, q, stamp, Interfaces(host), [], buf.Length)))
  {
    hide Joined, LinkMessages, Splits, Chosen, Taken, SaneList, SaneInterface;
    off, built := 0, 0;
    var list := Interfaces(host);
    var seen: seq<Name> := [];
    var stop := false;
    ghost var all := Chosen(host, q, stamp, list, [], buf.Length);
    ghost var chosen: seq<Link> := [];
    SplitsStart(all);
    JoinedOfNone(LinkMessages(q, stamp, []));
    while list != [] && !stop
      invariant built == |chosen| && off <= buf.Length && SaneList(list)
      invariant Splits(all, chosen, if stop then [] else Chosen(host, q, stamp, list, seen, buf.Length - off))
      invariant (built > 0 ==> off + 104 <= buf.Length) && (built == 0 ==> off == 0)
      invariant buf[..off] == Joined(LinkMessages(q, stamp, chosen))
      decreases |list|
    {
      var entry := list[0];
      ChosenStep(host, q, stamp, list, seen, buf.Length - off);
      Sane(list);
      if entry.name.Some? && entry.name.value !in seen {
        if |seen| < 64 {
          seen := seen + [entry.name.value];
        }
        var end;
        end, stop, chosen := TakeLink(buf, off, host, stamp, q, entry.name.value, list, seen, all, chosen);
        built := if end > off then built + 1 else built;
        off := end;
      }
      list := list[1..];
    }
    ChosenOfNone(host, q, stamp, seen, buf.Length - off);
    SplitsEnd(all, chosen);
  }

  lemma ChosenOfNone(host: Host, q: Query, stamp: Stamp, seen: seq<Name>, room: int)
    ensures Chosen(host, q, stamp, [], seen, room) == []
  {
  }

  // ----- Addresses of the host -----

  /** The addresses of a reply: of the wanted family, or of both. */
  function Listed(host: Host, family: nat, dump: bool, stamp: Stamp, list: seq<Interface>, room: int): seq<Address> {
    if list == [] then []
    else if !IsListed(family, list[0]) then Listed(host, family, dump, stamp, list[1..], room)
    else if room < 256 then []
    else
      var a := Situated(host, list[0]);
      [a] + Listed(host, family, dump, stamp, list[1..], room - |NewAddress(Flags(dump), stamp, a, 256)|)
  }

  predicate IsListed(family: nat, i: Interface) {
    && i.name.Some? && i.address.Inet? && (i.address.family == AF_INET || i.address.family == AF_INET6)
    && (family == 0 || i.address.family == family)
  }

  function Situated(host: Host, i: Interface): Address
    requires i.name.Some? && i.address.Inet?
  {
    Address(i.address.family, host.index(i.name.value), i.address.bytes, i.address.prefix, i.address.scope, i.name)
  }

  lemma SituatedIsSane(host: Host, family: nat, i: Interface)
    requires SaneInterface(i) && IsListed(family, i)
    ensures i.name.Some? && i.address.Inet?
    ensures SaneAddress(Situated(host, i))
  {
  }

  function AddressMessages(dump: bool, stamp: Stamp, addresses: seq<Address>): (ms: seq<seq<nat>>)
    ensures |ms| == |addresses|
  {
    seq(|addresses|, i requires 0 <= i < |addresses| => NewAddress(Flags(dump), stamp, addresses[i], 256))
  }

  lemma MoreAddresses(dump: bool, stamp: Stamp, addresses: seq<Address>, a: Address)
    ensures AddressMessages(dump, stamp, addresses + [a]) ==
      AddressMessages(dump, stamp, addresses) + [NewAddress(Flags(dump), stamp, a, 256)]
  {
  }

  /** One more address, where 256 bytes are free. */
  method AppendAddress(buf: array<nat>, off: nat, dump: bool, stamp: Stamp, a: Address, ghost before: seq<Address>)
    returns (end: nat)
    requires off + 256 <= buf.Length && SaneAddress(a) && buf[..off] == Joined(AddressMessages(dump, stamp, before))
    modifies buf
    ensures off < end == off + |NewAddress(Flags(dump), stamp, a, 256)| <= off + 152
    ensures buf[..end] == Joined(AddressMessages(dump, stamp, before + [a]))
  {
    hide NewAddress;
    SameAddress(Flags(dump), stamp, a, buf.Length - off);
    JoinedMore(AddressMessages(dump, stamp, before), NewAddress(Flags(dump), stamp, a, 256));
    MoreAddresses(dump, stamp, before, a);
    end := BuildAddress(buf, off, Flags(dump), stamp, a);
    assert |buf[..end]| == end;
  }

  /** build_host_addrs. */
  method BuildHostAddresses(buf: array<nat>, host: Host, stamp: Stamp, family: nat, dump: bool)
    returns (off: nat, built: nat)
    requires SaneHost(host)
    modifies buf
    ensures built == |Listed(host, family, dump, stamp, Interfaces(host), buf.Length)|
    ensures off <= buf.Length && (built > 0 ==> off + 104 <= buf.Length) && (built == 0 ==> off == 0)
    ensures buf[..off] == Joined(AddressMessages(dump, stamp, Listed(host, family, dump, stamp, Interfaces(host), buf.Length)))
  {
    hide NewAddress, Joined, AddressMessages, Situated, SaneAddress, Splits, Listed, SaneList, SaneInterface, IsListed;
    off, built := 0, 0;
    var list := Interfaces(host);
    ghost var all := Listed(host, family, dump, stamp, list, buf.Length);
    ghost var listed: seq<Address> := [];
    SplitsStart(all);
    JoinedOfNone(AddressMessages(dump, stamp, []));
    while list != []
      invariant built == |listed| && off <= buf.Length && SaneList(list)
      invariant Splits(all, listed, Listed(host, family, dump, stamp, list, buf.Length - off))
      invariant (built > 0 ==> off + 104 <= buf.Length) && (built == 0 ==> off == 0)
      invariant buf[..off] == Joined(AddressMessages(dump, stamp, listed))
      decreases |list|
    {
      ListedStep(host, family, dump, stamp, list, buf.Length - off);
      Sane(list);
      if IsListed(family, list[0]) {
        if off + 256 > buf.Length {
          break;
        }
        SituatedIsSane(host, family, list[0]);
        var a := Situated(host, list[0]);
        off := AppendAddress(buf, off, dump, stamp, a, listed);
        SplitsMore(all, listed, a, Listed(host, family, dump, stamp, list[1..], buf.Length - off));
        built := built + 1;
        listed := listed + [a];
      }
      list := list[1..];
    }
    ListedOfNone(host, family, dump, stamp, buf.Length - off);
    SplitsEnd(all, listed);
  }

  lemma ListedStep(host: Host, family: nat, dump: bool, stamp: Stamp, list: seq<Interface>, room: int)
    requires list != []
    ensures Listed(host, family, dump, stamp, list, room) ==
      if !IsListed(family, list[0]) then Listed(host, family, dump, stamp, list[1..], room)
      else if room < 256 then []
      else [Situated(host, list[0])] + Listed(host, family, dump, stamp, list[1..],
                                              room - |NewAddress(Flags(dump), stamp, Situated(host, list[0]), 256)|)
  {
  }

  lemma ListedOfNone(host: Host, family: nat, dump: bool, stamp: Stamp, room: int)
    ensures Listed(host, family, dump, stamp, [], room) == []
  {
  }

  // ----- Routes -----

  predicate Sized(ms: seq<seq<nat>>) {
    forall i :: 0 <= i < |ms| ==> |ms[i]| >= HEADER && LengthOf(ms[i]) == |ms[i]|
  }

  /** The messages of one answer of the kernel, met with NLMSG_OK and NLMSG_NEXT. */
  function Split(b: seq<nat>): (ms: seq<seq<nat>>)
    ensures Sized(ms)
  {
    if |b| < HEADER || LengthOf(b) < HEADER || LengthOf(b) > |b| then []
    else
      assert b[..LengthOf(b)][0..4] == b[0..4];
      [b[..LengthOf(b)]] + Split(b[if Align(LengthOf(b)) > |b| then |b| else Align(LengthOf(b))..])
  }

  /** All messages of at most 64 answers; an empty one ends them. */
  function Received(chunks: seq<seq<nat>>, rounds: nat): (ms: seq<seq<nat>>)
    ensures Sized(ms)
    decreases |chunks| - rounds
  {
    if rounds >= 64 || rounds >= |chunks| || chunks[rounds] == [] then []
    else Split(chunks[rounds]) + Received(chunks, rounds + 1)
  }

  /** The messages that are copied: up to the end of the dump, or as long as 64 bytes stay free. */
  function Kept(ms: seq<seq<nat>>, room: int): (kept: seq<seq<nat>>)
    requires Sized(ms)
    ensures Sized(kept)
  {
    if ms == [] || Align(|ms[0]|) + 64 > room then []
    else if TypeOf(ms[0]) == NLMSG_DONE then [ms[0]]
    else [ms[0]] + Kept(ms[1..], room - Align(|ms[0]|))
  }

  function Restamped(m: seq<nat>, stamp: Stamp): (r: seq<nat>)
    requires |m| >= HEADER
    ensures |r| == |m|
  {
    m[..8] + Bytes(stamp.seqno, 4) + Bytes(stamp.pid, 4) + m[HEADER..]
  }

  /** A restamped message is still the same message for its receiver, but for the stamp. */
  lemma RestampedIsRead(m: seq<nat>, stamp: Stamp)
    requires WellSized(m) && Fits32(stamp)
    ensures Stamped(Restamped(m, stamp), stamp) && TypeOf(Restamped(m, stamp)) == TypeOf(m)
  {
    var r := Restamped(m, stamp);
    assert r[0..4] == m[0..4] && r[4..6] == m[4..6];
    assert r == m[..8] + Bytes(stamp.seqno, 4) + (Bytes(stamp.pid, 4) + m[HEADER..]);
    Field(m[..8], stamp.seqno, 4, Bytes(stamp.pid, 4) + m[HEADER..]);
    assert r == (m[..8] + Bytes(stamp.seqno, 4)) + Bytes(stamp.pid, 4) + m[HEADER..];
    Field(m[..8] + Bytes(stamp.seqno, 4), stamp.pid, 4, m[HEADER..]);
  }

  function AllRestamped(ms: seq<seq<nat>>, stamp: Stamp): (rs: seq<seq<nat>>)
    requires Sized(ms)
    ensures |rs| == |ms|
  {
    seq(|ms|, i requires 0 <= i < |ms| => Restamped(ms[i], stamp))
  }

  /** What the tracee gets: the end of the dump is added when it is missing. */
  function RouteMessages(kept: seq<seq<nat>>, stamp: Stamp): seq<seq<nat>>
    requires Sized(kept)
  {
    if kept == [] then []
    else if TypeOf(kept[|kept| - 1]) == NLMSG_DONE then AllRestamped(kept, stamp)
    else AllRestamped(kept, stamp) + [DoneMessage(stamp)]
  }

  /** The kernel's message gets its stamp, and its padding is zeroed. */
  method AppendMessage(buf: array<nat>, off: nat, m: seq<nat>, stamp: Stamp, ghost before: seq<seq<nat>>)
    returns (end: nat)
    requires |m| >= HEADER && LengthOf(m) == |m| && off + Align(|m|) <= buf.Length
    requires Sized(before)
    requires buf[..off] == Joined(AllRestamped(before, stamp))
    modifies buf
    ensures end == off + Align(|m|)
    ensures Sized(before + [m])
    ensures buf[..end] == Joined(AllRestamped(before + [m], stamp))
  {
    var r, tail := Restamped(m, stamp), Zeros(Align(|m|) - |m|);
    ghost var was := buf[..];
    Copy(buf, off, r);
    Copy(buf, off + |m|, tail);
    WrittenTwice(was, off, r, tail);
    WrittenFrom(was, off, r + tail, 0);
    assert AllRestamped(before + [m], stamp) == AllRestamped(before, stamp) + [r];
    assert (AllRestamped(before, stamp) + [r])[..|before|] == AllRestamped(before, stamp);
    assert was[0..off] == was[..off];
    end := off + Align(|m|);
    assert buf[..end] == buf[0..end];
  }

  predicate Ended(ms: seq<seq<nat>>)
    requires Sized(ms)
  {
    ms != [] && TypeOf(ms[|ms| - 1]) == NLMSG_DONE
  }

  /** One answer of the kernel; `done` when no more is wanted. */
  method RelayChunk(buf: array<nat>, start: nat, chunk: seq<nat>, stamp: Stamp, ghost all: seq<seq<nat>>,
                    ghost before: seq<seq<nat>>, ghost later: seq<seq<nat>>)
    returns (off: nat, done: bool, sawDone: bool, ghost kept: seq<seq<nat>>)
    requires start + 64 <= buf.Length && |chunk| % 4 == 0
    requires Sized(before) && Sized(later) && !Ended(before) && Sized(Split(chunk) + later)
    requires Splits(all, before, Kept(Split(chunk) + later, buf.Length - start))
    requires buf[..start] == Joined(AllRestamped(before, stamp)) && (start == 0 <==> before == [])
    modifies buf
    ensures off + 64 <= buf.Length && Sized(kept)
    ensures Splits(all, kept, if done then [] else Kept(later, buf.Length - off))
    ensures buf[..off] == Joined(AllRestamped(kept, stamp)) && (off == 0 <==> kept == [])
    ensures (sawDone <==> Ended(kept)) && (sawDone ==> done)
  {
    hide Joined, AllRestamped, Restamped, Align, TypeOf, LengthOf, Value, Sized, Kept, Split, Splits;
    off, done, sawDone, kept := start, false, false, before;
    var rest := chunk;
    while |rest| >= HEADER && HEADER <= LengthOf(rest) <= |rest|
      invariant off + 64 <= buf.Length && |rest| % 4 == 0 && !done && !sawDone && Sized(kept) && !Ended(kept)
      invariant Sized(Split(rest) + later)
      invariant Splits(all, kept, Kept(Split(rest) + later, buf.Length - off))
      invariant buf[..off] == Joined(AllRestamped(kept, stamp)) && (off == 0 <==> kept == [])
      decreases |rest|
    {
      var length := LengthOf(rest);
      SplitStep(rest, later);
      var m, next := rest[..length], rest[Align(length)..];
      KeptStep(m, Split(next) + later, buf.Length - off);
      if off + Align(length) + 64 > buf.Length {
        done := true;
        return;
      }
      off := AppendMessage(buf, off, m, stamp, kept);
      if TypeOf(m) == NLMSG_DONE {
        assert [m] + [] == [m];
        SplitsMore(all, kept, m, []);
        kept := kept + [m];
        sawDone, done := true, true;
        return;
      }
      SplitsMore(all, kept, m, Kept(Split(next) + later, buf.Length - off));
      kept := kept + [m];
      rest := next;
    }
    SplitEnds(rest);
    assert [] + later == later;
  }

  lemma SplitEnds(b: seq<nat>)
    requires !(|b| >= HEADER && HEADER <= LengthOf(b) <= |b|)
    ensures Split(b) == []
  {
  }

  lemma AlignFits(n: nat, size: nat)
    requires n <= size && size % 4 == 0
    ensures n <= Align(n) <= size
  {
  }

  lemma SplitStep(b: seq<nat>, later: seq<seq<nat>>)
    requires |b| >= HEADER && HEADER <= LengthOf(b) <= |b| && |b| % 4 == 0
    ensures Align(LengthOf(b)) <= |b| && LengthOf(b[..LengthOf(b)]) == LengthOf(b)
    ensures Split(b) + later == [b[..LengthOf(b)]] + (Split(b[Align(LengthOf(b))..]) + later)
    ensures Sized(later) ==> Sized(Split(b[Align(LengthOf(b))..]) + later)
  {
    hide Align, Value;
    AlignFits(LengthOf(b), |b|);
    assert b[..LengthOf(b)][0..4] == b[0..4];
    var rest := Split(b[Align(LengthOf(b))..]);
    OneMore(b[..LengthOf(b)], rest, later);
  }

  lemma KeptStep(m: seq<nat>, tail: seq<seq<nat>>, room: int)
    requires |m| >= HEADER && LengthOf(m) == |m| && Sized(tail)
    ensures Sized([m] + tail)
    ensures Kept([m] + tail, room) ==
      if Align(|m|) + 64 > room then []
      else if TypeOf(m) == NLMSG_DONE then [m]
      else [m] + Kept(tail, room - Align(|m|))
  {
    assert ([m] + tail)[1..] == tail;
  }

  /** relay_route_dump; a host that does not cooperate gives no chunk. */
  method RelayRouteDump(buf: array<nat>, chunks: seq<seq<nat>>, stamp: Stamp) returns (off: nat)
    requires buf.Length >= 64
    requires forall i :: 0 <= i < |chunks| ==> |chunks[i]| % 4 == 0
    modifies buf
    ensures off <= buf.Length
    ensures buf[..off] == Joined(RouteMessages(Kept(Received(chunks, 0), buf.Length), stamp))
    ensures off == 0 <==> Kept(Received(chunks, 0), buf.Length) == []
  {
    hide Joined, AllRestamped, Restamped, Align, TypeOf, LengthOf, Value, Sized, Kept, Split, Splits;
    off := 0;
    var done, sawDone, rounds := false, false, 0;
    ghost var all := Kept(Received(chunks, 0), buf.Length);
    ghost var kept: seq<seq<nat>> := [];
    SplitsStart(all);
    KeptOfNone(0);
    JoinedOfNone(AllRestamped([], stamp));
    while !done && rounds < 64 && rounds < |chunks| && |chunks[rounds]| > 0
      invariant rounds <= 64 && off + 64 <= buf.Length && Sized(kept)
      invariant Splits(all, kept, if done then [] else Kept(Received(chunks, rounds), buf.Length - off))
      invariant (sawDone <==> Ended(kept)) && (sawDone ==> done)
      invariant buf[..off] == Joined(AllRestamped(kept, stamp)) && (off == 0 <==> kept == [])
      decreases 64 - rounds
    {
      var chunk := chunks[rounds];
      rounds := rounds + 1;
      off, done, sawDone, kept := RelayChunk(buf, off, chunk, stamp, all, kept, Received(chunks, rounds));
    }
    KeptOfNone(buf.Length - off);
    SplitsEnd(all, kept);
    if off > 0 && !sawDone {
      JoinedMore(AllRestamped(kept, stamp), DoneMessage(stamp));
      off := BuildDone(buf, off, stamp);
      assert buf[..off] == Joined(AllRestamped(kept, stamp) + [DoneMessage(stamp)]);
    }
  }

  lemma KeptOfNone(room: int)
    ensures Sized([]) && Kept([], room) == []
  {
  }

  // ----- The reply -----

  /** Whether the request is for a dump: both bits of NLM_F_DUMP. */
  predicate IsDump(req: seq<nat>)
    requires |req| >= HEADER
  {
    Has(Value(req[6..8]), 0x100) && Has(Value(req[6..8]), 0x200)
  }

  function FamilyOf(req: seq<nat>): nat {
    if |req| > HEADER then req[HEADER] else 0
  }

  function QueryOf(dump: bool, t: Target): Query {
    if dump then Dump
    else if t.name.Some? && t.name.value != [] then Named(t.name.value)
    else if t.index > 0 then Indexed(t.index)
    else Any
  }

  function Loopback(): Link {
    Link(1, ARPHRD_LOOPBACK, IFF_UP + IFF_LOOPBACK + IFF_RUNNING, 65536, [108, 111], Zeros(6))
  }

  function LoopbackAddress(family: nat): Address {
    if family == AF_INET6 then Address(AF_INET6, 1, Zeros(15) + [1], 128, RT_SCOPE_HOST, None)
    else Address(AF_INET, 1, [127, 0, 0, 1], 8, RT_SCOPE_HOST, Some([108, 111]))
  }

  function WithEnd(dump: bool, stamp: Stamp, ms: seq<seq<nat>>): seq<seq<nat>> {
    if dump then ms + [DoneMessage(stamp)] else ms
  }

  /** RTM_GETLINK: the links of the host, else the loopback interface, else an error. */
  function Links(host: Host, dump: bool, stamp: Stamp, t: Target): seq<seq<nat>> {
    var q := QueryOf(dump, t);
    var links := Chosen(host, q, stamp, Interfaces(host), [], MAX_REPLY);
    if links != [] then LinkMessages(q, stamp, links)
    else if dump || IsLoopback(t) then [NewLink(Flags(dump), stamp, Loopback(), 256)]
    else [ErrorMessage(stamp, ENODEV)]
  }

  /** The addresses of the loopback interface in this family, or in both. */
  function LoopbackAddresses(dump: bool, stamp: Stamp, family: nat): seq<seq<nat>> {
    (if family == 0 || family == AF_INET then [NewAddress(Flags(dump), stamp, LoopbackAddress(AF_INET), 256)] else [])
    + (if family == 0 || family == AF_INET6 then [NewAddress(Flags(dump), stamp, LoopbackAddress(AF_INET6), 256)] else [])
  }

  /** RTM_GETADDR: the addresses of the host, else those of the loopback interface. */
  function Addresses(host: Host, dump: bool, stamp: Stamp, family: nat): seq<seq<nat>> {
    var wanted := if family == AF_INET || family == AF_INET6 then family else 0;
    var listed := Listed(host, wanted, dump, stamp, Interfaces(host), MAX_REPLY);
    if listed != [] then AddressMessages(dump, stamp, listed) else LoopbackAddresses(dump, stamp, family)
  }

  /** RTM_GETROUTE as a dump. */
  function Routes(chunks: seq<seq<nat>>, stamp: Stamp): seq<seq<nat>> {
    var kept := Kept(Received(chunks, 0), MAX_REPLY);
    if kept == [] then [DoneMessage(stamp)] else RouteMessages(kept, stamp)
  }

  /** The messages of the reply. */
  function Answer(host: Host, chunks: seq<seq<nat>>, req: seq<nat>, pid: nat): seq<seq<nat>>
    requires |req| >= HEADER
  {
    var dump, stamp := IsDump(req), Stamp(SequenceOf(req), pid);
    if TypeOf(req) == RTM_GETLINK then WithEnd(dump, stamp, Links(host, dump, stamp, TargetOf(req)))
    else if TypeOf(req) == RTM_GETADDR then WithEnd(dump, stamp, Addresses(host, dump, stamp, FamilyOf(req)))
    else if !dump then [ErrorMessage(stamp, 0)]
    else if TypeOf(req) == RTM_GETROUTE then Routes(chunks, stamp)
    else [DoneMessage(stamp)]
  }

  lemma LoopbackIsSane()
    ensures SaneLink(Loopback())
    ensures SaneAddress(LoopbackAddress(AF_INET)) && SaneAddress(LoopbackAddress(AF_INET6))
  {
  }

  method ReplyLinks(buf: array<nat>, host: Host, dump: bool, stamp: Stamp, t: Target) returns (off: nat)
    requires SaneHost(host) && buf.Length == MAX_REPLY
    modifies buf
    ensures off + HEADER + 4 <= MAX_REPLY && buf[..off] == Joined(Links(host, dump, stamp, t))
  {
    hide Joined, NewLink, ErrorMessage, Chosen, QueryOf, LinkMessages, Loopback, SaneLink;
    var built;
    off, built := BuildHostLinks(buf, host, stamp, QueryOf(dump, t));
    if built == 0 {
      off := 0;
      if dump || IsLoopback(t) {
        LoopbackIsSane();
        SameLink(Flags(dump), stamp, Loopback(), MAX_REPLY);
        off := BuildLink(buf, 0, Flags(dump), stamp, Loopback());
        JoinedSingle(NewLink(Flags(dump), stamp, Loopback(), 256));
        assert [] + NewLink(Flags(dump), stamp, Loopback(), 256) == NewLink(Flags(dump), stamp, Loopback(), 256);
      } else {
        off := BuildError(buf, 0, stamp, ENODEV);
        JoinedSingle(ErrorMessage(stamp, ENODEV));
        assert [] + ErrorMessage(stamp, ENODEV) == ErrorMessage(stamp, ENODEV);
      }
    }
  }

  lemma JoinedSingle(m: seq<nat>)
    requires |m| % 4 == 0
    ensures Joined([m]) == m
  {
    JoinedOne(m);
    assert Padded(m) == m;
  }

  method ReplyAddresses(buf: array<nat>, host: Host, dump: bool, stamp: Stamp, family: nat) returns (off: nat)
    requires SaneHost(host) && buf.Length == MAX_REPLY
    modifies buf
    ensures off + HEADER + 4 <= MAX_REPLY && buf[..off] == Joined(Addresses(host, dump, stamp, family))
  {
    hide Joined, NewAddress, Listed, AddressMessages, LoopbackAddress, SaneAddress;
    var wanted := if family == AF_INET || family == AF_INET6 then family else 0;
    var built;
    off, built := BuildHostAddresses(buf, host, stamp, wanted, dump);
    if built == 0 {
      off := ReplyLoopbackAddresses(buf, dump, stamp, family);
    }
  }

  method ReplyLoopbackAddresses(buf: array<nat>, dump: bool, stamp: Stamp, family: nat) returns (off: nat)
    requires buf.Length == MAX_REPLY
    modifies buf
    ensures off <= 304 && buf[..off] == Joined(LoopbackAddresses(dump, stamp, family))
  {
    hide Joined, NewAddress, LoopbackAddress, SaneAddress;
    LoopbackIsSane();
    off := 0;
    ghost var ms: seq<seq<nat>> := [];
    JoinedOfNone(ms);
    var v4, v6 := LoopbackAddress(AF_INET), LoopbackAddress(AF_INET6);
    if family == 0 || family == AF_INET {
      SameAddress(Flags(dump), stamp, v4, MAX_REPLY);
      JoinedMore(ms, NewAddress(Flags(dump), stamp, v4, 256));
      off := BuildAddress(buf, off, Flags(dump), stamp, v4);
      ms := ms + [NewAddress(Flags(dump), stamp, v4, 256)];
      assert buf[..off] == Joined(ms) && off <= 152;
    }
    assert ms == if family == 0 || family == AF_INET then [NewAddress(Flags(dump), stamp, v4, 256)] else [];
    if family == 0 || family == AF_INET6 {
      SameAddress(Flags(dump), stamp, v6, MAX_REPLY - off);
      JoinedMore(ms, NewAddress(Flags(dump), stamp, v6, 256));
      off := BuildAddress(buf, off, Flags(dump), stamp, v6);
      ms := ms + [NewAddress(Flags(dump), stamp, v6, 256)];
    }
    assert ms == LoopbackAddresses(dump, stamp, family);
  }

  /** build_fake_netlink_reply, on what the tracee sent to its socket; 0 when there is no request to answer. */
  method BuildReply(buf: array<nat>, tracee: Tracee, address: nat, size: nat, host: Host, chunks: seq<seq<nat>>, pid: nat)
    returns (off: nat)
    requires SaneHost(host) && buf.Length == MAX_REPLY
    requires forall i :: 0 <= i < |chunks| ==> |chunks[i]| % 4 == 0
    modifies buf
    ensures off <= MAX_REPLY
    ensures var n := if size < 256 then size else 256;
      if address == 0 || size < HEADER || !AllIn(tracee.memory, address, RoundUp(n)) then off == 0
      else AllIn(tracee.memory, address, n)
           && buf[..off] == Joined(Answer(host, chunks, BytesAt(tracee.memory, address, n), pid))
  {
    if address == 0 || size < HEADER {
      return 0;
    }
    var n := if size < 256 then size else 256;
    var data := tracee.ReadData(address, n);
    if data.None? {
      return 0;
    }
    off := ReplyTo(buf, data.value, host, chunks, pid);
  }

  method ReplyTo(buf: array<nat>, req: seq<nat>, host: Host, chunks: seq<seq<nat>>, pid: nat) returns (off: nat)
    requires SaneHost(host) && buf.Length == MAX_REPLY && |req| >= HEADER
    requires forall i :: 0 <= i < |chunks| ==> |chunks[i]| % 4 == 0
    modifies buf
    ensures off <= MAX_REPLY && buf[..off] == Joined(Answer(host, chunks, req, pid))
  {
    hide Joined, Links, Addresses, Routes, DoneMessage, ErrorMessage, TargetOf, IsDump, Value, SaneHost;
    var kind, dump, stamp := TypeOf(req), IsDump(req), Stamp(SequenceOf(req), pid);
    if kind == RTM_GETLINK {
      var t := RequestedLink(req);
      off := ReplyLinks(buf, host, dump, stamp, t);
      off := EndReply(buf, off, dump, stamp, Links(host, dump, stamp, t));
    } else if kind == RTM_GETADDR {
      off := ReplyAddresses(buf, host, dump, stamp, FamilyOf(req));
      off := EndReply(buf, off, dump, stamp, Addresses(host, dump, stamp, FamilyOf(req)));
    } else if !dump {
      off := BuildError(buf, 0, stamp, 0);
      JoinedSingle(ErrorMessage(stamp, 0));
      assert [] + ErrorMessage(stamp, 0) == ErrorMessage(stamp, 0);
    } else if kind == RTM_GETROUTE {
      off := ReplyRoutes(buf, chunks, stamp);
    } else {
      off := BuildDone(buf, 0, stamp);
      JoinedSingle(DoneMessage(stamp));
      assert [] + DoneMessage(stamp) == DoneMessage(stamp);
    }
  }

  method EndReply(buf: array<nat>, off: nat, dump: bool, stamp: Stamp, ghost ms: seq<seq<nat>>) returns (end: nat)
    requires off + HEADER + 4 <= buf.Length && buf[..off] == Joined(ms)
    modifies buf
    ensures end <= buf.Length && buf[..end] == Joined(WithEnd(dump, stamp, ms))
  {
    hide Joined, DoneMessage;
    end := off;
    if dump {
      JoinedMore(ms, DoneMessage(stamp));
      end := BuildDone(buf, off, stamp);
    }
  }

  method ReplyRoutes(buf: array<nat>, chunks: seq<seq<nat>>, stamp: Stamp) returns (off: nat)
    requires buf.Length == MAX_REPLY && forall i :: 0 <= i < |chunks| ==> |chunks[i]| % 4 == 0
    modifies buf
    ensures off <= MAX_REPLY && buf[..off] == Joined(Routes(chunks, stamp))
  {
    hide Joined, DoneMessage, Kept, Received, RouteMessages;
    off := RelayRouteDump(buf, chunks, stamp);
    if off == 0 {
      off := BuildDone(buf, 0, stamp);
      JoinedSingle(DoneMessage(stamp));
      assert [] + DoneMessage(stamp) == DoneMessage(stamp);
    }
  }

  // ----- What the tracee reads -----

  ghost predicate AllStamped(ms: seq<seq<nat>>, stamp: Stamp) {
    forall i :: 0 <= i < |ms| ==> Stamped(ms[i], stamp)
  }

  /** The last message ends the dump, and no other one does. */
  ghost predicate EndsOnce(ms: seq<seq<nat>>, stamp: Stamp)
    requires AllStamped(ms, stamp)
  {
    ms != [] && forall i :: 0 <= i < |ms| ==> (TypeOf(ms[i]) == NLMSG_DONE <==> i == |ms| - 1)
  }

  ghost predicate Endless(ms: seq<seq<nat>>, stamp: Stamp)
    requires AllStamped(ms, stamp)
  {
    forall i :: 0 <= i < |ms| ==> TypeOf(ms[i]) != NLMSG_DONE
  }

  lemma {:induction false} ChosenAreSane(host: Host, q: Query, stamp: Stamp, list: seq<Interface>, seen: seq<Name>,
                                         room: int, ls: seq<Link>)
    requires SaneHost(host) && SaneList(list) && ls == Chosen(host, q, stamp, list, seen, room)
    ensures forall i :: 0 <= i < |ls| ==> SaneLink(ls[i])
    decreases |list|
  {
    hide SaneLink, Described, SaneInterface, NewLink;
    if list != [] {
      Sane(list);
      if list[0].name.None? || list[0].name.value in seen {
        ChosenAreSane(host, q, stamp, list[1..], seen, room, ls);
      } else {
        var name := list[0].name.value;
        var known := if |seen| < 64 then seen + [name] else seen;
        var l := Described(host, name, list[0]);
        DescribedIsSane(host, list[0]);
        if !Wanted(q, l) {
          ChosenAreSane(host, q, stamp, list[1..], known, room, ls);
        } else if room >= 256 && q.Dump? {
          ChosenAreSane(host, q, stamp, list[1..], known, room - |NewLink(Flags(true), stamp, l, 256)|, ls[1..]);
        }
      }
    }
  }

  lemma {:induction false} ListedAreSane(host: Host, family: nat, dump: bool, stamp: Stamp, list: seq<Interface>,
                                         room: int, addresses: seq<Address>)
    requires SaneList(list) && addresses == Listed(host, family, dump, stamp, list, room)
    ensures forall i :: 0 <= i < |addresses| ==> SaneAddress(addresses[i])
    decreases |list|
  {
    if list != [] {
      Sane(list);
      if !IsListed(family, list[0]) {
        ListedAreSane(host, family, dump, stamp, list[1..], room, addresses);
      } else if room >= 256 {
        var a := Situated(host, list[0]);
        ListedAreSane(host, family, dump, stamp, list[1..], room - |NewAddress(Flags(dump), stamp, a, 256)|, addresses[1..]);
      }
    }
  }

  lemma LinksAreRead(host: Host, dump: bool, stamp: Stamp, t: Target)
    requires SaneHost(host) && Fits32(stamp)
    ensures AllStamped(Links(host, dump, stamp, t), stamp) && Endless(Links(host, dump, stamp, t), stamp)
  {
    hide NewLink, Loopback, ErrorMessage, Stamped, TypeOf, Chosen, SaneLink;
    var q := QueryOf(dump, t);
    var links := Chosen(host, q, stamp, Interfaces(host), [], MAX_REPLY);
    ChosenAreSane(host, q, stamp, Interfaces(host), [], MAX_REPLY, links);
    forall i | 0 <= i < |links|
      ensures IsLink(LinkMessages(q, stamp, links)[i], stamp)
    {
      LinkIsLink(Flags(dump), stamp, links[i]);
    }
    LoopbackIsSane();
    LinkIsLink(Flags(dump), stamp, Loopback());
    ErrorIsRead(stamp, ENODEV);
    assert forall i :: 0 <= i < |links| ==> IsLink(LinkMessages(q, stamp, links)[i], stamp);
  }

  ghost predicate IsLink(m: seq<nat>, stamp: Stamp) {
    Stamped(m, stamp) && TypeOf(m) == RTM_NEWLINK
  }

  lemma LinkIsLink(flags: nat, stamp: Stamp, l: Link)
    requires SaneLink(l) && Fits32(stamp)
    ensures IsLink(NewLink(flags, stamp, l, 256), stamp)
  {
    hide NewLink, SaneLink, Stamped;
    LinkIsWhole(flags, stamp, l, 256);
  }

  ghost predicate IsAddress(m: seq<nat>, stamp: Stamp) {
    Stamped(m, stamp) && TypeOf(m) == RTM_NEWADDR
  }

  lemma AddressIsAddress(flags: nat, stamp: Stamp, a: Address)
    requires SaneAddress(a) && Fits32(stamp)
    ensures IsAddress(NewAddress(flags, stamp, a, 256), stamp)
  {
    hide NewAddress, SaneAddress, Stamped;
    AddressIsWhole(flags, stamp, a, 256);
  }

  lemma AddressesAreRead(host: Host, dump: bool, stamp: Stamp, family: nat)
    requires SaneHost(host) && Fits32(stamp)
    ensures AllStamped(Addresses(host, dump, stamp, family), stamp) && Endless(Addresses(host, dump, stamp, family), stamp)
  {
    hide NewAddress, LoopbackAddress, Stamped, TypeOf, Listed, SaneAddress;
    var wanted := if family == AF_INET || family == AF_INET6 then family else 0;
    var listed := Listed(host, wanted, dump, stamp, Interfaces(host), MAX_REPLY);
    ListedAreSane(host, wanted, dump, stamp, Interfaces(host), MAX_REPLY, listed);
    forall i | 0 <= i < |listed|
      ensures IsAddress(AddressMessages(dump, stamp, listed)[i], stamp)
    {
      AddressIsAddress(Flags(dump), stamp, listed[i]);
    }
    LoopbackIsSane();
    AddressIsAddress(Flags(dump), stamp, LoopbackAddress(AF_INET));
    AddressIsAddress(Flags(dump), stamp, LoopbackAddress(AF_INET6));
    assert forall i :: 0 <= i < |listed| ==> IsAddress(AddressMessages(dump, stamp, listed)[i], stamp);
  }

  /** Only the last message that is copied can end the dump. */
  lemma {:induction false} KeptEndsOnce(ms: seq<seq<nat>>, room: int)
    requires Sized(ms)
    ensures forall i :: 0 <= i < |Kept(ms, room)| - 1 ==> TypeOf(Kept(ms, room)[i]) != NLMSG_DONE
    decreases |ms|
  {
    if ms != [] && Align(|ms[0]|) + 64 <= room && TypeOf(ms[0]) != NLMSG_DONE {
      KeptEndsOnce(ms[1..], room - Align(|ms[0]|));
    }
  }

  lemma RoutesAreRead(chunks: seq<seq<nat>>, stamp: Stamp)
    requires Fits32(stamp)
    ensures AllStamped(Routes(chunks, stamp), stamp) && EndsOnce(Routes(chunks, stamp), stamp)
  {
    hide Received, Kept, Restamped, DoneMessage, LengthOf, SequenceOf, PortOf, TypeOf;
    var kept := Kept(Received(chunks, 0), MAX_REPLY);
    KeptEndsOnce(Received(chunks, 0), MAX_REPLY);
    forall i | 0 <= i < |kept|
      ensures Stamped(AllRestamped(kept, stamp)[i], stamp) && TypeOf(AllRestamped(kept, stamp)[i]) == TypeOf(kept[i])
    {
      RestampedIsRead(kept[i], stamp);
    }
    DoneIsRead(stamp);
  }

  /**
   For any request, host and routes: the reply walks by aligned lengths to exactly its end, every message
   carries the sequence number of the request and the port of the tracee, and a dump ends with its only
   NLMSG_DONE.
   */
  lemma ReplyIsReadable(host: Host, chunks: seq<seq<nat>>, req: seq<nat>, pid: nat)
    requires SaneHost(host) && |req| >= HEADER && pid < Power(4)
    requires forall i :: 0 <= i < |req| ==> req[i] < 256
    ensures var ms := Answer(host, chunks, req, pid);
      && Walk(Joined(ms)) == Some(ms)
      && AllStamped(ms, Stamp(SequenceOf(req), pid))
      && (IsDump(req) ==> EndsOnce(ms, Stamp(SequenceOf(req), pid)))
  {
    hide Links, Addresses, Routes, DoneMessage, ErrorMessage, TargetOf, SaneHost, Value, Power, Walk, Joined;
    var dump, stamp, ms := IsDump(req), Stamp(SequenceOf(req), pid), Answer(host, chunks, req, pid);
    ValueBound(req[8..12]);
    LinksAreRead(host, dump, stamp, TargetOf(req));
    AddressesAreRead(host, dump, stamp, FamilyOf(req));
    RoutesAreRead(chunks, stamp);
    DoneIsRead(stamp);
    ErrorIsRead(stamp, 0);
    assert AllStamped(ms, stamp);
    WalkJoined(ms);
  }

  // ----- Completeness of a dump of links -----

  ghost function LinkNames(ls: seq<Link>): set<Name> {
    set l | l in ls :: l.name
  }

  ghost function InterfaceNames(list: seq<Interface>): set<Name> {
    set i | i in list && i.name.Some? :: i.name.value
  }

  /** The table of the names that were seen: it has 64 places. */
  function Remember(seen: seq<Name>, name: Name): seq<Name> {
    if |seen| < 64 then seen + [name] else seen
  }

  /** The table after all entries. */
  function Remembered(list: seq<Interface>, seen: seq<Name>): seq<Name>
    decreases |list|
  {
    if list == [] then seen
    else if list[0].name.None? || list[0].name.value in seen then Remembered(list[1..], seen)
    else Remembered(list[1..], Remember(seen, list[0].name.value))
  }

  /** The links of a dump with any amount of room. */
  function Listing(host: Host, list: seq<Interface>, seen: seq<Name>): seq<Link>
    decreases |list|
  {
    if list == [] then []
    else if list[0].name.None? || list[0].name.value in seen then Listing(host, list[1..], seen)
    else
      [Described(host, list[0].name.value, list[0])]
      + Listing(host, list[1..], Remember(seen, list[0].name.value))
  }

  /** The bytes of the messages of a dump. */
  function DumpSize(stamp: Stamp, ls: seq<Link>): nat {
    if ls == [] then 0 else |NewLink(Flags(true), stamp, ls[0], 256)| + DumpSize(stamp, ls[1..])
  }

  /** A dump holds the first of them, and all of them exactly when 256 bytes remain for the last one. */
  lemma {:induction false} DumpTakesFirsts(host: Host, stamp: Stamp, list: seq<Interface>, seen: seq<Name>, room: int)
    ensures var all := Listing(host, list, seen);
      && Chosen(host, Dump, stamp, list, seen, room) <= all
      && (Chosen(host, Dump, stamp, list, seen, room) == all <==>
            all == [] || DumpSize(stamp, all[..|all| - 1]) + 256 <= room)
    decreases |list|
  {
    hide Described, NewLink;
    if list != [] {
      var next := list[1..];
      if list[0].name.None? || list[0].name.value in seen {
        DumpTakesFirsts(host, stamp, next, seen, room);
      } else {
        var name := list[0].name.value;
        var l := Described(host, name, list[0]);
        var rest := Listing(host, next, Remember(seen, name));
        var left := room - |NewLink(Flags(true), stamp, l, 256)|;
        DumpTakesFirsts(host, stamp, next, Remember(seen, name), left);
        AllButLast(stamp, l, rest);
      }
    }
  }

  lemma AllButLast(stamp: Stamp, l: Link, rest: seq<Link>)
    ensures var all := [l] + rest;
      DumpSize(stamp, all[..|all| - 1]) ==
      if rest == [] then 0
      else |NewLink(Flags(true), stamp, l, 256)| + DumpSize(stamp, rest[..|rest| - 1])
  {
    hide NewLink;
    if rest != [] {
      var front := ([l] + rest)[..|rest|];
      assert front[0] == l && front[1..] == rest[..|rest| - 1];
    }
  }

  ghost predicate Distinct(ls: seq<Link>) {
    forall i, j :: 0 <= i < j < |ls| ==> ls[i].name != ls[j].name
  }

  /** A name that comes twice is in the table. */
  ghost predicate RepeatsRemembered(list: seq<Interface>, table: seq<Name>) {
    forall p, q :: 0 <= p < q < |list| && list[p].name == list[q].name && list[p].name.Some? ==>
      list[p].name.value in table
  }

  lemma {:induction false} SeenStays(list: seq<Interface>, seen: seq<Name>)
    ensures forall n :: n in seen ==> n in Remembered(list, seen)
    ensures |seen| >= 64 ==> Remembered(list, seen) == seen
    decreases |list|
  {
    if list != [] {
      if list[0].name.None? || list[0].name.value in seen {
        SeenStays(list[1..], seen);
      } else {
        SeenStays(list[1..], Remember(seen, list[0].name.value));
      }
    }
  }

  /** No name is left out, and one is listed twice exactly when it repeats outside of the table. */
  lemma {:induction false} ListingNames(host: Host, list: seq<Interface>, seen: seq<Name>)
    requires SaneHost(host) && SaneList(list)
    ensures var all := Listing(host, list, seen);
      && LinkNames(all) == InterfaceNames(list) - (set n | n in seen)
      && (Distinct(all) <==> RepeatsRemembered(list, Remembered(list, seen)))
    decreases |list|
  {
    hide Described, SaneLink, Distinct, RepeatsRemembered;
    if list == [] {
      NothingRepeats();
    } else {
      var next := list[1..];
      assert list == [list[0]] + next;
      Sane(list);
      SeenStays(list, seen);
      if list[0].name.None? || list[0].name.value in seen {
        ListingNames(host, next, seen);
        RepeatsOne(list, Remembered(list, seen));
      } else {
        var name := list[0].name.value;
        var l := Described(host, name, list[0]);
        DescribedIsSane(host, list[0]);
        var known := Remember(seen, name);
        ListingNames(host, next, known);
        SeenStays(next, known);
        RepeatsOne(list, Remembered(list, seen));
        NamesMore(list, seen, name, l, Listing(host, next, known), known);
      }
    }
  }

  lemma NothingRepeats()
    ensures Distinct([]) && forall table :: RepeatsRemembered([], table)
  {
  }

  lemma RepeatsOne(list: seq<Interface>, table: seq<Name>)
    requires list != []
    ensures RepeatsRemembered(list, table) <==>
      && RepeatsRemembered(list[1..], table)
      && (list[0].name.Some? && list[0].name.value in InterfaceNames(list[1..]) ==> list[0].name.value in table)
  {
    hide InterfaceNames, RepeatsRemembered;
    if RepeatsRemembered(list, table) {
      RepeatsRest(list, table);
    }
    if RepeatsRemembered(list[1..], table)
      && (list[0].name.Some? && list[0].name.value in InterfaceNames(list[1..]) ==> list[0].name.value in table) {
      RepeatsWhole(list, table);
    }
  }

  lemma RepeatsRest(list: seq<Interface>, table: seq<Name>)
    requires list != [] && RepeatsRemembered(list, table)
    ensures RepeatsRemembered(list[1..], table)
    ensures list[0].name.Some? && list[0].name.value in InterfaceNames(list[1..]) ==> list[0].name.value in table
  {
    var next := list[1..];
    forall p, q | 0 <= p < q < |next| && next[p].name == next[q].name && next[p].name.Some?
      ensures next[p].name.value in table
    {
      assert list[p + 1].name == list[q + 1].name;
    }
    if list[0].name.Some? && list[0].name.value in InterfaceNames(next) {
      var i :| i in next && i.name.Some? && i.name.value == list[0].name.value;
      var q :| 0 <= q < |next| && next[q] == i;
      assert list[0].name == list[q + 1].name;
    }
  }

  lemma RepeatsWhole(list: seq<Interface>, table: seq<Name>)
    requires list != [] && RepeatsRemembered(list[1..], table)
    requires list[0].name.Some? && list[0].name.value in InterfaceNames(list[1..]) ==> list[0].name.value in table
    ensures RepeatsRemembered(list, table)
  {
    var next := list[1..];
    forall p, q | 0 <= p < q < |list| && list[p].name == list[q].name && list[p].name.Some?
      ensures list[p].name.value in table
    {
      assert next[q - 1] in next && next[q - 1].name == list[p].name;
      if p > 0 {
        assert next[p - 1].name == next[q - 1].name;
      }
    }
  }

  lemma NamesMore(list: seq<Interface>, seen: seq<Name>, name: Name, l: Link, ls: seq<Link>, known: seq<Name>)
    requires list != [] && list[0].name == Some(name) && l.name == name && name !in seen && known == Remember(seen, name)
    requires LinkNames(ls) == InterfaceNames(list[1..]) - (set n | n in known)
    ensures LinkNames([l] + ls) == InterfaceNames(list) - (set n | n in seen)
    ensures Distinct([l] + ls) <==> Distinct(ls) && (name in InterfaceNames(list[1..]) ==> name in known)
  {
    assert list == [list[0]] + list[1..];
    assert InterfaceNames(list) == {name} + InterfaceNames(list[1..]);
    assert LinkNames([l] + ls) == {name} + LinkNames(ls);
    DistinctMore(l, ls);
  }

  lemma DistinctMore(l: Link, ls: seq<Link>)
    ensures Distinct([l] + ls) <==> Distinct(ls) && l.name !in LinkNames(ls)
  {
    var all := [l] + ls;
    if l.name in LinkNames(ls) {
      var x :| x in ls && x.name == l.name;
      var j :| 0 <= j < |ls| && ls[j] == x;
      assert all[0].name == all[j + 1].name;
    } else {
      forall j | 0 <= j < |ls|
        ensures ls[j].name != l.name
      {
        assert ls[j] in ls;
      }
    }
    assert forall i :: 0 <= i < |ls| ==> all[i + 1] == ls[i];
    if Distinct(all) {
      forall i, j | 0 <= i < j < |ls|
        ensures ls[i].name != ls[j].name
      {
        assert all[i + 1].name != all[j + 1].name;
      }
    }
  }

  /**
   A dump of links holds names of the host, in order and without omission up to where less than 256
   bytes remain.  It is complete exactly when they remain for its last link.  With room for all it names
   an interface twice exactly when a name comes twice that is not in the table, which is full then.
   */
  lemma DumpListsEachOnce(host: Host, stamp: Stamp, room: int)
    requires SaneHost(host)
    ensures var list := Interfaces(host);
      var all, ls := Listing(host, list, []), Chosen(host, Dump, stamp, Interfaces(host), [], room);
      && ls <= all && LinkNames(all) == InterfaceNames(list)
      && (ls == all <==> all == [] || DumpSize(stamp, all[..|all| - 1]) + 256 <= room)
      && (Distinct(all) <==> RepeatsRemembered(list, Remembered(list, [])))
      && (|InterfaceNames(list)| <= 64 ==> Distinct(ls))
  {
    hide Listing, Chosen, DumpSize, SaneInterface, Distinct, RepeatsRemembered, InterfaceNames;
    var list := Interfaces(host);
    var none: seq<Name> := [];
    DumpTakesFirsts(host, stamp, list, none, room);
    ListingNames(host, list, none);
    assert InterfaceNames(list) - (set n | n in none) == InterfaceNames(list);
    if |InterfaceNames(list)| <= 64 {
      FewAreRemembered(list, none, InterfaceNames(list));
      AllRemembered(list, Remembered(list, none));
      PrefixDistinct(Chosen(host, Dump, stamp, list, none, room), Listing(host, list, none));
    }
  }

  predicate NoRepetition(seen: seq<Name>) {
    forall i, j :: 0 <= i < j < |seen| ==> seen[i] != seen[j]
  }

  lemma {:induction false} AsManyAs(seen: seq<Name>, names: set<Name>)
    requires NoRepetition(seen) && forall n :: n in seen ==> n in names
    ensures |seen| <= |names|
    decreases |seen|
  {
    if seen != [] {
      var last := seen[|seen| - 1];
      AsManyAs(seen[..|seen| - 1], names - {last});
    }
  }

  /** Up to 64 names all get a place. */
  lemma {:induction false} FewAreRemembered(list: seq<Interface>, seen: seq<Name>, names: set<Name>)
    requires |names| <= 64 && NoRepetition(seen) && (forall n :: n in seen ==> n in names)
    requires InterfaceNames(list) <= names
    ensures forall n :: n in InterfaceNames(list) ==> n in Remembered(list, seen)
    decreases |list|
  {
    if list != [] {
      var next := list[1..];
      assert list == [list[0]] + next;
      SeenStays(list, seen);
      assert InterfaceNames(next) <= InterfaceNames(list);
      if list[0].name.None? || list[0].name.value in seen {
        FewAreRemembered(next, seen, names);
      } else {
        var name := list[0].name.value;
        assert name in InterfaceNames(list);
        AsManyAs(seen, names - {name});
        FewAreRemembered(next, seen + [name], names);
        SeenStays(next, seen + [name]);
      }
    }
  }

  lemma AllRemembered(list: seq<Interface>, table: seq<Name>)
    requires forall n :: n in InterfaceNames(list) ==> n in table
    ensures RepeatsRemembered(list, table)
  {
    forall p, q | 0 <= p < q < |list| && list[p].name == list[q].name && list[p].name.Some?
      ensures list[p].name.value in table
    {
      assert list[p] in list && list[p].name.value in InterfaceNames(list);
    }
  }

  lemma PrefixDistinct(ls: seq<Link>, all: seq<Link>)
    requires ls <= all && Distinct(all)
    ensures Distinct(ls)
  {
    forall i, j | 0 <= i < j < |ls|
      ensures ls[i].name != ls[j].name
    {
      assert all[i].name != all[j].name;
    }
  }
}
