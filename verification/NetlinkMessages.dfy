/**
 Building the messages of a netlink reply in a fixed buffer (syscall/enter.c:539-712), and how their
 receiver reads them: the header of RFC 3549 section 2.3.2, then attributes.
 */
module NetlinkMessages {
  import opened Wrappers
  import opened Words

  const HEADER: nat := 16
  const ATTRIBUTE: nat := 4

  const NLMSG_ERROR: nat := 2
  const NLMSG_DONE: nat := 3
  const RTM_NEWLINK: nat := 16
  const RTM_NEWADDR: nat := 20
  const NLM_F_MULTI: nat := 2

  const IFLA_ADDRESS: nat := 1
  const IFLA_BROADCAST: nat := 2
  const IFLA_IFNAME: nat := 3
  const IFLA_MTU: nat := 4
  const IFLA_TXQLEN: nat := 13
  const IFLA_OPERSTATE: nat := 16
  const IFA_ADDRESS: nat := 1
  const IFA_LOCAL: nat := 2
  const IFA_LABEL: nat := 3
  const IFA_F_PERMANENT: nat := 128

  const IFF_UP: nat := 1
  const IFF_LOOPBACK: nat := 8
  const IFF_RUNNING: nat := 64
  const IFF_LOWER_UP: nat := 65536
  const ARPHRD_LOOPBACK: nat := 772
  const AF_INET: nat := 2

  /** NLMSG_ALIGN and RTA_ALIGN. */
  function Align(n: nat): (a: nat)
    ensures n <= a < n + 4 && a % 4 == 0
  {
    n + (4 - n % 4) % 4
  }

  function Zeros(n: nat): (z: seq<nat>)
    ensures |z| == n
  {
    seq(n, _ => 0)
  }

  function Padded(m: seq<nat>): (p: seq<nat>)
    ensures |p| == Align(|m|)
  {
    m + Zeros(Align(|m|) - |m|)
  }

  // ----- The receiver -----

  function LengthOf(m: seq<nat>): nat
    requires |m| >= HEADER
  {
    Value(m[0..4])
  }

  function TypeOf(m: seq<nat>): nat
    requires |m| >= HEADER
  {
    Value(m[4..6])
  }

  function SequenceOf(m: seq<nat>): nat
    requires |m| >= HEADER
  {
    Value(m[8..12])
  }

  function PortOf(m: seq<nat>): nat
    requires |m| >= HEADER
  {
    Value(m[12..16])
  }

  /** The messages met with NLMSG_OK and NLMSG_NEXT, provided that they fill the bytes exactly. */
  function Walk(b: seq<nat>): Option<seq<seq<nat>>> {
    if b == [] then Some([])
    else if |b| < HEADER then None
    else
      var length := LengthOf(b);
      if length < HEADER || Align(length) > |b| then None
      else
        var rest := Walk(b[Align(length)..]);
        if rest.None? then None else Some([b[..length]] + rest.value)
  }

  ghost predicate WellSized(m: seq<nat>) {
    |m| >= HEADER && LengthOf(m) == |m|
  }

  /** The messages one after the other, each with its padding. */
  function Joined(ms: seq<seq<nat>>): seq<nat> {
    if ms == [] then [] else Joined(ms[..|ms| - 1]) + Padded(ms[|ms| - 1])
  }

  lemma WalkStep(b: seq<nat>, length: nat, rest: seq<nat>)
    requires |b| >= HEADER && length == LengthOf(b) >= HEADER && Align(length) <= |b| && rest == b[Align(length)..]
    ensures Walk(b) == if Walk(rest).None? then None else Some([b[..length]] + Walk(rest).value)
  {
  }

  lemma FrontOf(a: seq<nat>, b: seq<nat>, length: nat)
    requires HEADER <= length <= Align(length) <= |a|
    ensures (a + b)[0..4] == a[0..4] && (a + b)[..length] == a[..length]
    ensures (a + b)[Align(length)..] == a[Align(length)..] + b
  {
  }

  lemma {:induction false} WalkAppend(a: seq<nat>, b: seq<nat>)
    requires Walk(a).Some? && Walk(b).Some?
    ensures Walk(a + b) == Some(Walk(a).value + Walk(b).value)
    decreases |a|
  {
    if a == [] {
      assert a + b == b && Walk(a).value + Walk(b).value == Walk(b).value;
    } else {
      var length := LengthOf(a);
      var rest := a[Align(length)..];
      WalkAppend(rest, b);
      FrontOf(a, b, length);
      WalkStep(a, length, rest);
      WalkStep(a + b, length, rest + b);
      OneMore(a[..length], Walk(rest).value, Walk(b).value);
    }
  }

  /** A loop has done `a`, and `b` is left of `all`. */
  ghost predicate Splits<T>(all: seq<T>, a: seq<T>, b: seq<T>) {
    all == a + b
  }

  lemma SplitsStart<T>(all: seq<T>)
    ensures Splits(all, [], all)
  {
  }

  lemma SplitsMore<T>(all: seq<T>, a: seq<T>, x: T, b: seq<T>)
    requires Splits(all, a, [x] + b)
    ensures Splits(all, a + [x], b)
  {
  }

  lemma SplitsEnd<T>(all: seq<T>, a: seq<T>)
    requires Splits(all, a, [])
    ensures all == a
  {
  }

  lemma OneMore<T>(x: T, a: seq<T>, b: seq<T>)
    ensures [x] + (a + b) == ([x] + a) + b
  {
  }

  lemma WalkOne(m: seq<nat>)
    requires WellSized(m)
    ensures Walk(Padded(m)) == Some([m])
  {
    var p := Padded(m);
    assert p[0..4] == m[0..4] && p[..|m|] == m && p[Align(|m|)..] == [];
    assert [m] + [] == [m];
  }

  /** A receiver finds the messages that were put in, and nothing else. */
  lemma {:induction false} WalkJoined(ms: seq<seq<nat>>)
    requires forall i :: 0 <= i < |ms| ==> WellSized(ms[i])
    ensures Walk(Joined(ms)) == Some(ms)
    decreases |ms|
  {
    if ms != [] {
      var front, last := ms[..|ms| - 1], ms[|ms| - 1];
      WalkJoined(front);
      WalkOne(last);
      WalkAppend(Joined(front), Padded(last));
      assert ms == front + [last];
    }
  }

  lemma {:induction false} JoinedAppend(a: seq<seq<nat>>, b: seq<seq<nat>>)
    ensures Joined(a + b) == Joined(a) + Joined(b)
    decreases |b|
  {
    if b == [] {
      assert a + b == a;
    } else {
      var front := b[..|b| - 1];
      assert (a + b)[..|a + b| - 1] == a + front;
      JoinedAppend(a, front);
    }
  }

  lemma JoinedOne(m: seq<nat>)
    ensures Joined([m]) == Padded(m)
  {
    assert [m][..0] == [] && Joined([]) == [];
  }

  // ----- Headers -----

  /** Who asked: replies carry both back. */
  datatype Stamp = Stamp(seqno: nat, pid: nat)

  function Header(length: nat, kind: nat, flags: nat, stamp: Stamp): (h: seq<nat>)
    ensures |h| == HEADER
  {
    Bytes(length, 4) + Bytes(kind, 2) + Bytes(flags, 2) + Bytes(stamp.seqno, 4) + Bytes(stamp.pid, 4)
  }

  function Message(kind: nat, flags: nat, stamp: Stamp, body: seq<nat>): (m: seq<nat>)
    ensures |m| == HEADER + |body|
  {
    Header(HEADER + |body|, kind, flags, stamp) + body
  }

  lemma Field(before: seq<nat>, w: nat, n: nat, after: seq<nat>)
    requires w < Power(n)
    ensures Value((before + Bytes(w, n) + after)[|before|..|before| + n]) == w
  {
    assert (before + Bytes(w, n) + after)[|before|..|before| + n] == Bytes(w, n);
    ValueOfBytes(w, n);
  }

  predicate Fits32(stamp: Stamp) {
    stamp.seqno < Power(4) && stamp.pid < Power(4)
  }

  lemma LengthField(length: nat, kind: nat, flags: nat, stamp: Stamp, body: seq<nat>)
    requires length < Power(4)
    ensures Value((Header(length, kind, flags, stamp) + body)[0..4]) == length
  {
    var rest := Bytes(kind, 2) + Bytes(flags, 2) + Bytes(stamp.seqno, 4) + Bytes(stamp.pid, 4) + body;
    assert Header(length, kind, flags, stamp) + body == [] + Bytes(length, 4) + rest;
    Field([], length, 4, rest);
  }

  lemma TypeField(length: nat, kind: nat, flags: nat, stamp: Stamp, body: seq<nat>)
    requires kind < Power(2)
    ensures Value((Header(length, kind, flags, stamp) + body)[4..6]) == kind
  {
    var rest := Bytes(flags, 2) + Bytes(stamp.seqno, 4) + Bytes(stamp.pid, 4) + body;
    assert Header(length, kind, flags, stamp) + body == Bytes(length, 4) + Bytes(kind, 2) + rest;
    Field(Bytes(length, 4), kind, 2, rest);
  }

  lemma StampFields(length: nat, kind: nat, flags: nat, stamp: Stamp, body: seq<nat>)
    requires Fits32(stamp)
    ensures Value((Header(length, kind, flags, stamp) + body)[8..12]) == stamp.seqno
    ensures Value((Header(length, kind, flags, stamp) + body)[12..16]) == stamp.pid
  {
    var front := Bytes(length, 4) + Bytes(kind, 2) + Bytes(flags, 2);
    var all := Header(length, kind, flags, stamp) + body;
    assert all == front + Bytes(stamp.seqno, 4) + (Bytes(stamp.pid, 4) + body);
    Field(front, stamp.seqno, 4, Bytes(stamp.pid, 4) + body);
    assert all == (front + Bytes(stamp.seqno, 4)) + Bytes(stamp.pid, 4) + body;
    Field(front + Bytes(stamp.seqno, 4), stamp.pid, 4, body);
  }

  /** A message carries this stamp. */
  ghost predicate Stamped(m: seq<nat>, stamp: Stamp) {
    WellSized(m) && SequenceOf(m) == stamp.seqno && PortOf(m) == stamp.pid
  }

  lemma MessageIsRead(kind: nat, flags: nat, stamp: Stamp, body: seq<nat>)
    requires Fits32(stamp) && kind < Power(2) && HEADER + |body| < Power(4)
    ensures Stamped(Message(kind, flags, stamp, body), stamp)
    ensures TypeOf(Message(kind, flags, stamp, body)) == kind
  {
    LengthField(HEADER + |body|, kind, flags, stamp, body);
    TypeField(HEADER + |body|, kind, flags, stamp, body);
    StampFields(HEADER + |body|, kind, flags, stamp, body);
  }

  // ----- Attributes -----

  datatype Attribute = Attribute(kind: nat, data: seq<nat>)

  function AttributeBytes(a: Attribute): (b: seq<nat>)
    ensures |b| == ATTRIBUTE + Align(|a.data|)
  {
    Bytes(ATTRIBUTE + |a.data|, 2) + Bytes(a.kind, 2) + Padded(a.data)
  }

  /** An attribute is appended, or dropped when there is no room for it. */
  function Extended(body: seq<nat>, room: nat, a: Attribute): (e: seq<nat>)
    ensures body <= e && (|body| <= room ==> |e| <= room)
    ensures |e| % 4 == |body| % 4
  {
    if |body| + |AttributeBytes(a)| > room then body else body + AttributeBytes(a)
  }

  function ExtendedAll(body: seq<nat>, room: nat, attributes: seq<Attribute>): (e: seq<nat>)
    ensures body <= e && (|body| <= room ==> |e| <= room)
    ensures |e| % 4 == |body| % 4
  {
    if attributes == [] then body
    else Extended(ExtendedAll(body, room, attributes[..|attributes| - 1]), room, attributes[|attributes| - 1])
  }

  lemma ExtendedMore(body: seq<nat>, room: nat, attributes: seq<Attribute>, a: Attribute)
    ensures ExtendedAll(body, room, attributes + [a]) == Extended(ExtendedAll(body, room, attributes), room, a)
  {
    assert (attributes + [a])[..|attributes|] == attributes;
  }

  /** The attributes met with RTA_OK and RTA_NEXT. */
  function Attributes(b: seq<nat>): seq<Attribute> {
    if |b| < ATTRIBUTE then []
    else
      var length := Value(b[0..2]);
      if length < ATTRIBUTE || length > |b| then []
      else [First(b, length)] + Attributes(b[if Align(length) > |b| then |b| else Align(length)..])
  }

  function First(b: seq<nat>, length: nat): Attribute
    requires ATTRIBUTE <= length <= |b|
  {
    Attribute(Value(b[2..4]), b[ATTRIBUTE..length])
  }

  ghost predicate Readable(a: Attribute) {
    a.kind < Power(2) && ATTRIBUTE + |a.data| < Power(2)
  }

  /** The bytes are attributes to their end. */
  ghost predicate Regular(b: seq<nat>) {
    |b| > 0 ==>
      && |b| >= ATTRIBUTE && Value(b[0..2]) >= ATTRIBUTE && Align(Value(b[0..2])) <= |b|
      && Regular(b[Align(Value(b[0..2]))..])
  }

  lemma OneAttribute(a: Attribute)
    requires Readable(a)
    ensures Attributes(AttributeBytes(a)) == [a] && Regular(AttributeBytes(a))
  {
    hide Bytes, Zeros, Value;
    var b := AttributeBytes(a);
    var length := ATTRIBUTE + |a.data|;
    assert b == [] + Bytes(length, 2) + (Bytes(a.kind, 2) + Padded(a.data));
    Field([], length, 2, Bytes(a.kind, 2) + Padded(a.data));
    Field(Bytes(length, 2), a.kind, 2, Padded(a.data));
    assert b[ATTRIBUTE..length] == a.data;
    assert Align(length) == |b| && b[|b|..] == [];
  }

  lemma {:induction false} AttributesAppend(a: seq<nat>, b: seq<nat>)
    requires Regular(a)
    ensures Attributes(a + b) == Attributes(a) + Attributes(b)
    ensures Regular(b) ==> Regular(a + b)
    decreases |a|
  {
    if a == [] {
      assert a + b == b;
    } else {
      var length := Value(a[0..2]);
      var rest := a[Align(length)..];
      AttributesAppend(rest, b);
      FirstAppend(a, b, length);
      AttributesStep(a + b, length, rest + b);
      AttributesStep(a, length, rest);
      OneMore(First(a, length), Attributes(rest), Attributes(b));
    }
  }

  lemma FirstAppend(a: seq<nat>, b: seq<nat>, length: nat)
    requires ATTRIBUTE <= length <= Align(length) <= |a|
    ensures (a + b)[0..2] == a[0..2] && First(a + b, length) == First(a, length)
    ensures (a + b)[Align(length)..] == a[Align(length)..] + b
  {
    assert (a + b)[0..2] == a[0..2] && (a + b)[2..4] == a[2..4];
    assert (a + b)[ATTRIBUTE..length] == a[ATTRIBUTE..length];
  }

  lemma AttributesStep(b: seq<nat>, length: nat, rest: seq<nat>)
    requires |b| >= ATTRIBUTE && length == Value(b[0..2]) >= ATTRIBUTE && Align(length) <= |b|
    requires rest == b[Align(length)..]
    ensures Attributes(b) == [First(b, length)] + Attributes(rest)
    ensures Regular(rest) ==> Regular(b)
  {
  }

  function TotalSize(attributes: seq<Attribute>): nat {
    if attributes == [] then 0
    else TotalSize(attributes[..|attributes| - 1]) + |AttributeBytes(attributes[|attributes| - 1])|
  }

  /** With enough room every attribute is there, and is read back. */
  lemma {:induction false} AllAttributes(fixed: seq<nat>, room: nat, attributes: seq<Attribute>)
    requires |fixed| + TotalSize(attributes) <= room
    requires forall i :: 0 <= i < |attributes| ==> Readable(attributes[i])
    ensures |ExtendedAll(fixed, room, attributes)| == |fixed| + TotalSize(attributes)
    ensures Attributes(ExtendedAll(fixed, room, attributes)[|fixed|..]) == attributes
    ensures Regular(ExtendedAll(fixed, room, attributes)[|fixed|..])
    decreases |attributes|
  {
    if attributes == [] {
      assert fixed[|fixed|..] == [];
    } else {
      var front, last := attributes[..|attributes| - 1], attributes[|attributes| - 1];
      AllAttributes(fixed, room, front);
      OneMoreAttribute(fixed, ExtendedAll(fixed, room, front), front, last);
      assert attributes == front + [last];
    }
  }

  lemma OneMoreAttribute(fixed: seq<nat>, before: seq<nat>, front: seq<Attribute>, last: Attribute)
    requires |fixed| <= |before| && Attributes(before[|fixed|..]) == front && Regular(before[|fixed|..])
    requires Readable(last)
    ensures Attributes((before + AttributeBytes(last))[|fixed|..]) == front + [last]
    ensures Regular((before + AttributeBytes(last))[|fixed|..])
  {
    assert (before + AttributeBytes(last))[|fixed|..] == before[|fixed|..] + AttributeBytes(last);
    OneAttribute(last);
    AttributesAppend(before[|fixed|..], AttributeBytes(last));
  }

  // ----- The buffer -----

  /** memcpy. */
  method Copy(buf: array<nat>, at: nat, bytes: seq<nat>)
    requires at + |bytes| <= buf.Length
    modifies buf
    ensures buf[..] == Written(old(buf[..]), at, bytes)
  {
    forall i | 0 <= i < |bytes| {
      buf[at + i] := bytes[i];
    }
  }

  /** nl_add_attr, on a message whose body starts at `start` and has these attributes so far. */
  method AddAttr(buf: array<nat>, off: nat, kind: nat, data: seq<nat>, ghost start: nat, ghost fixed: seq<nat>,
                 ghost done: seq<Attribute>)
    returns (end: nat)
    requires start <= off <= buf.Length
    requires buf[start..off] == ExtendedAll(fixed, buf.Length - start, done)
    modifies buf
    ensures off <= end <= buf.Length && buf[..start] == old(buf[..start])
    ensures buf[start..end] == ExtendedAll(fixed, buf.Length - start, done + [Attribute(kind, data)])
  {
    hide AttributeBytes, Written, ExtendedAll;
    ExtendedMore(fixed, buf.Length - start, done, Attribute(kind, data));
    var space := Align(ATTRIBUTE + |data|);
    AttributeParts(kind, data);
    if off + space > buf.Length {
      return off;
    }
    WrittenFrom(buf[..], off, AttributeBytes(Attribute(kind, data)), start);
    PutAttr(buf, off, kind, data);
    return off + space;
  }

  /** The bytes of one attribute, for which there is room. */
  method PutAttr(buf: array<nat>, off: nat, kind: nat, data: seq<nat>)
    requires off + |AttributeBytes(Attribute(kind, data))| <= buf.Length
    modifies buf
    ensures buf[..] == Written(old(buf[..]), off, AttributeBytes(Attribute(kind, data)))
  {
    hide Written, Bytes, Zeros, AttributeBytes;
    var length := ATTRIBUTE + |data|;
    var space := Align(length);
    AttributeParts(kind, data);
    var head, tail := Bytes(length, 2) + Bytes(kind, 2), Zeros(space - length);
    ghost var before := buf[..];
    Copy(buf, off, head);
    Copy(buf, off + ATTRIBUTE, data);
    WrittenTwice(before, off, head, data);
    Copy(buf, off + length, tail);
    WrittenTwice(before, off, head + data, tail);
  }

  lemma WrittenFrom(b: seq<nat>, at: nat, x: seq<nat>, start: nat)
    requires start <= at && at + |x| <= |b|
    ensures Written(b, at, x)[start..at + |x|] == b[start..at] + x
    ensures Written(b, at, x)[..start] == b[..start]
  {
  }

  lemma FrontKept(b: seq<nat>, c: seq<nat>, start: nat, body: nat)
    requires start <= body <= |b| && body <= |c| && c[..body] == b[..body]
    ensures c[..start] == b[..start]
  {
    assert c[..start] == c[..body][..start];
  }

  lemma AttributeParts(kind: nat, data: seq<nat>)
    ensures Align(ATTRIBUTE + |data|) == ATTRIBUTE + Align(|data|)
    ensures AttributeBytes(Attribute(kind, data)) ==
      Bytes(ATTRIBUTE + |data|, 2) + Bytes(kind, 2) + data + Zeros(Align(ATTRIBUTE + |data|) - (ATTRIBUTE + |data|))
  {
  }

  /** A buffer after a memcpy. */
  function Written(b: seq<nat>, at: nat, bytes: seq<nat>): (c: seq<nat>)
    requires at + |bytes| <= |b|
    ensures |c| == |b|
  {
    b[..at] + bytes + b[at + |bytes|..]
  }

  lemma WrittenTwice(b: seq<nat>, at: nat, x: seq<nat>, y: seq<nat>)
    requires at + |x| + |y| <= |b|
    ensures Written(Written(b, at, x), at + |x|, y) == Written(b, at, x + y)
  {
  }

  /** The header goes in front once the length is known. */
  method PutHeader(buf: array<nat>, start: nat, off: nat, kind: nat, flags: nat, stamp: Stamp, ghost before: seq<nat>,
                   ghost body: seq<nat>)
    requires start + HEADER <= off <= buf.Length && |before| == start
    requires buf[..start] == before && buf[start + HEADER..off] == body
    modifies buf
    ensures buf[..off] == before + Message(kind, flags, stamp, body)
  {
    ghost var was := buf[..];
    var header := Header(off - start, kind, flags, stamp);
    Copy(buf, start, header);
    assert was[start + HEADER..off] == body && was[..start] == before;
    assert buf[..off] == was[..start] + header + was[start + HEADER..off];
    assert before + header + body == before + (header + body);
  }

  // ----- Links -----

  datatype Link = Link(index: nat, kind: nat, flags: nat, mtu: nat, name: seq<nat>, address: seq<nat>)

  /** Whether a one-bit flag is set. */
  predicate Has(flags: nat, bit: nat)
    requires bit > 0
  {
    flags / bit % 2 == 1
  }

  /** struct ifinfomsg. */
  function LinkInfo(l: Link): (b: seq<nat>)
    ensures |b| == 16
  {
    var flags := if Has(l.flags, IFF_RUNNING) && !Has(l.flags, IFF_LOWER_UP) then l.flags + IFF_LOWER_UP else l.flags;
    Zeros(2) + Bytes(l.kind, 2) + Bytes(l.index, 4) + Bytes(flags, 4) + Zeros(4)
  }

  function Operstate(l: Link): nat {
    if Has(l.flags, IFF_UP) then 6 else 2
  }

  function Broadcast(l: Link): (b: seq<nat>)
    ensures |b| == |l.address|
  {
    seq(|l.address|, _ => if l.kind == ARPHRD_LOOPBACK then 0 else 255)
  }

  function LinkAttributes(l: Link): seq<Attribute> {
    var always := [Attribute(IFLA_IFNAME, l.name + [0])] + [Attribute(IFLA_MTU, Bytes(l.mtu, 4))]
                  + [Attribute(IFLA_TXQLEN, Bytes(1000, 4))] + [Attribute(IFLA_OPERSTATE, [Operstate(l)])];
    if l.address == [] then always
    else always + [Attribute(IFLA_ADDRESS, l.address)] + [Attribute(IFLA_BROADCAST, Broadcast(l))]
  }

  /** What nl_build_link appends. */
  function NewLink(flags: nat, stamp: Stamp, l: Link, room: nat): seq<nat> {
    if HEADER + 16 > room then []
    else Message(RTM_NEWLINK, flags, stamp, ExtendedAll(LinkInfo(l), room - HEADER, LinkAttributes(l)))
  }

  /** The attributes of nl_build_link. */
  method AddLinkAttributes(buf: array<nat>, at: nat, l: Link, ghost body: nat, ghost fixed: seq<nat>) returns (off: nat)
    requires body <= at <= buf.Length && buf[body..at] == fixed && |fixed| <= buf.Length - body
    modifies buf
    ensures at <= off <= buf.Length && buf[..body] == old(buf[..body])
    ensures buf[body..off] == ExtendedAll(fixed, buf.Length - body, LinkAttributes(l))
  {
    ghost var done: seq<Attribute> := [];
    off := AddAttr(buf, at, IFLA_IFNAME, l.name + [0], body, fixed, done);
    done := [Attribute(IFLA_IFNAME, l.name + [0])];
    assert [] + done == done;
    off := AddAttr(buf, off, IFLA_MTU, Bytes(l.mtu, 4), body, fixed, done);
    done := done + [Attribute(IFLA_MTU, Bytes(l.mtu, 4))];
    off := AddAttr(buf, off, IFLA_TXQLEN, Bytes(1000, 4), body, fixed, done);
    done := done + [Attribute(IFLA_TXQLEN, Bytes(1000, 4))];
    off := AddAttr(buf, off, IFLA_OPERSTATE, [Operstate(l)], body, fixed, done);
    done := done + [Attribute(IFLA_OPERSTATE, [Operstate(l)])];
    if |l.address| > 0 {
      off := AddAttr(buf, off, IFLA_ADDRESS, l.address, body, fixed, done);
      done := done + [Attribute(IFLA_ADDRESS, l.address)];
      off := AddAttr(buf, off, IFLA_BROADCAST, Broadcast(l), body, fixed, done);
      done := done + [Attribute(IFLA_BROADCAST, Broadcast(l))];
    }
    assert done == LinkAttributes(l);
  }

  /** nl_build_link. */
  method BuildLink(buf: array<nat>, start: nat, flags: nat, stamp: Stamp, l: Link) returns (end: nat)
    requires start <= buf.Length
    modifies buf
    ensures start <= end <= buf.Length
    ensures buf[..end] == old(buf[..start]) + NewLink(flags, stamp, l, buf.Length - start)
  {
    if start + HEADER + 16 > buf.Length {
      return start;
    }
    var body := start + HEADER;
    var fixed := LinkInfo(l);
    ghost var before := buf[..];
    Copy(buf, body, fixed);
    WrittenFrom(before, body, fixed, body);
    var off := AddLinkAttributes(buf, body + 16, l, body, fixed);
    FrontKept(before, buf[..], start, body);
    PutHeader(buf, start, off, RTM_NEWLINK, flags, stamp, before[..start],
              ExtendedAll(fixed, buf.Length - body, LinkAttributes(l)));
    return off;
  }

  // ----- Addresses -----

  datatype Address = Address(family: nat, index: nat, bytes: seq<nat>, prefix: nat, scope: nat, tag: Option<seq<nat>>)

  /** struct ifaddrmsg. */
  function AddressInfo(a: Address): (b: seq<nat>)
    ensures |b| == 8
  {
    [a.family, a.prefix, IFA_F_PERMANENT, a.scope] + Bytes(a.index, 4)
  }

  function AddressAttributes(a: Address): seq<Attribute> {
    var always := [Attribute(IFA_ADDRESS, a.bytes)] + [Attribute(IFA_LOCAL, a.bytes)];
    if a.family == AF_INET && a.tag.Some? then always + [Attribute(IFA_LABEL, a.tag.value + [0])] else always
  }

  /** What nl_build_addr appends. */
  function NewAddress(flags: nat, stamp: Stamp, a: Address, room: nat): seq<nat> {
    if HEADER + 8 > room then []
    else Message(RTM_NEWADDR, flags, stamp, ExtendedAll(AddressInfo(a), room - HEADER, AddressAttributes(a)))
  }

  /** The attributes of nl_build_addr. */
  method AddAddressAttributes(buf: array<nat>, at: nat, a: Address, ghost body: nat, ghost fixed: seq<nat>)
    returns (off: nat)
    requires body <= at <= buf.Length && buf[body..at] == fixed && |fixed| <= buf.Length - body
    modifies buf
    ensures at <= off <= buf.Length && buf[..body] == old(buf[..body])
    ensures buf[body..off] == ExtendedAll(fixed, buf.Length - body, AddressAttributes(a))
  {
    ghost var done: seq<Attribute> := [];
    off := AddAttr(buf, at, IFA_ADDRESS, a.bytes, body, fixed, done);
    done := [Attribute(IFA_ADDRESS, a.bytes)];
    assert [] + done == done;
    off := AddAttr(buf, off, IFA_LOCAL, a.bytes, body, fixed, done);
    done := done + [Attribute(IFA_LOCAL, a.bytes)];
    if a.family == AF_INET && a.tag.Some? {
      off := AddAttr(buf, off, IFA_LABEL, a.tag.value + [0], body, fixed, done);
      done := done + [Attribute(IFA_LABEL, a.tag.value + [0])];
    }
    assert done == AddressAttributes(a);
  }

  /** nl_build_addr. */
  method BuildAddress(buf: array<nat>, start: nat, flags: nat, stamp: Stamp, a: Address) returns (end: nat)
    requires start <= buf.Length
    modifies buf
    ensures start <= end <= buf.Length
    ensures buf[..end] == old(buf[..start]) + NewAddress(flags, stamp, a, buf.Length - start)
  {
    if start + HEADER + 8 > buf.Length {
      return start;
    }
    var body := start + HEADER;
    var fixed := AddressInfo(a);
    ghost var before := buf[..];
    Copy(buf, body, fixed);
    WrittenFrom(before, body, fixed, body);
    var off := AddAddressAttributes(buf, body + 8, a, body, fixed);
    FrontKept(before, buf[..], start, body);
    PutHeader(buf, start, off, RTM_NEWADDR, flags, stamp, before[..start],
              ExtendedAll(fixed, buf.Length - body, AddressAttributes(a)));
    return off;
  }

  // ----- Ends -----

  function DoneMessage(stamp: Stamp): (m: seq<nat>)
    ensures |m| == HEADER + 4
  {
    Message(NLMSG_DONE, NLM_F_MULTI, stamp, Bytes(0, 4))
  }

  /** The two's complement of an errno. */
  function Negated(error: nat): nat {
    (0x1_0000_0000 - error % 0x1_0000_0000) % 0x1_0000_0000
  }

  /** The error is negative, or 0 for an acknowledgement; the header of the request is not repeated. */
  function ErrorMessage(stamp: Stamp, error: nat): (m: seq<nat>)
    ensures |m| == HEADER + 20
  {
    Message(NLMSG_ERROR, 0, stamp, Bytes(Negated(error), 4) + Zeros(HEADER))
  }

  /** nl_build_done and nl_build_error: a whole message, or nothing. */
  method BuildEnd(buf: array<nat>, off: nat, kind: nat, flags: nat, stamp: Stamp, payload: seq<nat>) returns (end: nat)
    requires off <= buf.Length && |payload| % 4 == 0
    modifies buf
    ensures off <= end <= buf.Length
    ensures end == if off + HEADER + |payload| > buf.Length then off else off + HEADER + |payload|
    ensures buf[..end] == old(buf[..off]) + if end > off then Message(kind, flags, stamp, payload) else []
  {
    var length := HEADER + |payload|;
    if off + Align(length) > buf.Length {
      return off;
    }
    ghost var before := buf[..];
    Copy(buf, off + HEADER, payload);
    WrittenFrom(before, off + HEADER, payload, off + HEADER);
    FrontKept(before, buf[..], off, off + HEADER);
    PutHeader(buf, off, off + length, kind, flags, stamp, before[..off], payload);
    return off + length;
  }

  method BuildDone(buf: array<nat>, off: nat, stamp: Stamp) returns (end: nat)
    requires off <= buf.Length
    modifies buf
    ensures end == if off + HEADER + 4 > buf.Length then off else off + HEADER + 4
    ensures buf[..end] == old(buf[..off]) + if end > off then DoneMessage(stamp) else []
  {
    end := BuildEnd(buf, off, NLMSG_DONE, NLM_F_MULTI, stamp, Bytes(0, 4));
  }

  method BuildError(buf: array<nat>, off: nat, stamp: Stamp, error: nat) returns (end: nat)
    requires off <= buf.Length
    modifies buf
    ensures end == if off + HEADER + 20 > buf.Length then off else off + HEADER + 20
    ensures buf[..end] == old(buf[..off]) + if end > off then ErrorMessage(stamp, error) else []
  {
    end := BuildEnd(buf, off, NLMSG_ERROR, 0, stamp, Bytes(Negated(error), 4) + Zeros(HEADER));
  }

  // ----- Whole messages -----

  /** What the kernel promises about names and hardware addresses. */
  predicate SaneLink(l: Link) {
    |l.name| < 16 && |l.address| <= 8
  }

  predicate SaneAddress(a: Address) {
    |a.bytes| <= 16 && (a.tag.Some? ==> |a.tag.value| < 16)
  }

  /** A message with room for all its attributes: the receiver gets those. */
  lemma WholeMessage(kind: nat, flags: nat, stamp: Stamp, fixed: seq<nat>, attributes: seq<Attribute>, room: nat,
                     m: seq<nat>)
    requires Fits32(stamp) && kind < Power(2) && |fixed| <= 16 && |fixed| % 4 == 0 && room >= 256
    requires TotalSize(attributes) <= 120 && forall i :: 0 <= i < |attributes| ==> Readable(attributes[i])
    requires m == Message(kind, flags, stamp, ExtendedAll(fixed, room - HEADER, attributes))
    ensures HEADER + |fixed| <= |m| <= 152 && |m| % 4 == 0
    ensures Stamped(m, stamp) && TypeOf(m) == kind
    ensures m[HEADER..HEADER + |fixed|] == fixed && Attributes(m[HEADER + |fixed|..]) == attributes
  {
    hide Message, ExtendedAll, Stamped, TypeOf, Attributes, TotalSize, Readable, Fits32, Power, Regular;
    var body := ExtendedAll(fixed, room - HEADER, attributes);
    AllAttributes(fixed, room - HEADER, attributes);
    SmallWord(HEADER + |body|);
    WholeBody(kind, flags, stamp, fixed, body);
  }

  lemma SmallWord(n: nat)
    requires n < 65536
    ensures n < Power(4)
  {
  }

  lemma WholeBody(kind: nat, flags: nat, stamp: Stamp, fixed: seq<nat>, body: seq<nat>)
    requires Fits32(stamp) && kind < Power(2) && HEADER + |body| < Power(4) && fixed <= body
    ensures var m := Message(kind, flags, stamp, body);
      && Stamped(m, stamp) && TypeOf(m) == kind
      && m[HEADER..HEADER + |fixed|] == fixed && m[HEADER + |fixed|..] == body[|fixed|..]
  {
    MessageIsRead(kind, flags, stamp, body);
    BodyOf(Header(HEADER + |body|, kind, flags, stamp), body, fixed);
  }

  ghost predicate WholeLink(m: seq<nat>, stamp: Stamp, l: Link) {
    && HEADER + 16 <= |m| <= 152 && |m| % 4 == 0 && Stamped(m, stamp) && TypeOf(m) == RTM_NEWLINK
    && m[HEADER..HEADER + 16] == LinkInfo(l) && Attributes(m[HEADER + 16..]) == LinkAttributes(l)
  }

  ghost predicate WholeAddress(m: seq<nat>, stamp: Stamp, a: Address) {
    && HEADER + 8 <= |m| <= 152 && |m| % 4 == 0 && Stamped(m, stamp) && TypeOf(m) == RTM_NEWADDR
    && m[HEADER..HEADER + 8] == AddressInfo(a) && Attributes(m[HEADER + 8..]) == AddressAttributes(a)
  }

  /** 256 bytes are enough for a link with all its attributes, and the receiver gets those. */
  lemma LinkIsWhole(flags: nat, stamp: Stamp, l: Link, room: nat)
    requires SaneLink(l) && Fits32(stamp) && room >= 256
    ensures WholeLink(NewLink(flags, stamp, l, room), stamp, l)
  {
    LinkSize(l);
    WholeMessage(RTM_NEWLINK, flags, stamp, LinkInfo(l), LinkAttributes(l), room, NewLink(flags, stamp, l, room));
  }

  lemma BodyOf(header: seq<nat>, body: seq<nat>, fixed: seq<nat>)
    requires fixed <= body
    ensures (header + body)[|header|..|header| + |fixed|] == fixed
    ensures (header + body)[|header| + |fixed|..] == body[|fixed|..]
  {
  }

  /** Attributes of at most 16 bytes take 20 bytes each. */
  lemma {:induction false} SmallAttributes(attributes: seq<Attribute>)
    requires forall i :: 0 <= i < |attributes| ==> |attributes[i].data| <= 16
    ensures TotalSize(attributes) <= 20 * |attributes|
    decreases |attributes|
  {
    if attributes != [] {
      SmallAttributes(attributes[..|attributes| - 1]);
    }
  }

  lemma LinkSize(l: Link)
    requires SaneLink(l)
    ensures TotalSize(LinkAttributes(l)) <= 120
    ensures forall i :: 0 <= i < |LinkAttributes(l)| ==> Readable(LinkAttributes(l)[i])
  {
    SmallAttributes(LinkAttributes(l));
  }

  lemma AddressIsWhole(flags: nat, stamp: Stamp, a: Address, room: nat)
    requires SaneAddress(a) && Fits32(stamp) && room >= 256
    ensures WholeAddress(NewAddress(flags, stamp, a, room), stamp, a)
  {
    AddressSize(a);
    WholeMessage(RTM_NEWADDR, flags, stamp, AddressInfo(a), AddressAttributes(a), room,
                 NewAddress(flags, stamp, a, room));
  }

  lemma AddressSize(a: Address)
    requires SaneAddress(a)
    ensures TotalSize(AddressAttributes(a)) <= 60
    ensures forall i :: 0 <= i < |AddressAttributes(a)| ==> Readable(AddressAttributes(a)[i])
  {
    SmallAttributes(AddressAttributes(a));
  }

  lemma DoneIsRead(stamp: Stamp)
    requires Fits32(stamp)
    ensures Stamped(DoneMessage(stamp), stamp) && TypeOf(DoneMessage(stamp)) == NLMSG_DONE
  {
    MessageIsRead(NLMSG_DONE, NLM_F_MULTI, stamp, Bytes(0, 4));
  }

  lemma ErrorIsRead(stamp: Stamp, error: nat)
    requires Fits32(stamp)
    ensures Stamped(ErrorMessage(stamp, error), stamp) && TypeOf(ErrorMessage(stamp, error)) == NLMSG_ERROR
  {
    var m := ErrorMessage(stamp, error);
    MessageIsRead(NLMSG_ERROR, 0, stamp, m[HEADER..]);
    assert m == Message(NLMSG_ERROR, 0, stamp, m[HEADER..]);
  }
}
