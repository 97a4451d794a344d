/** Building frames, and the round trip through the parser: every payload comes out at the handler of
    its destination port. */
module Encapsulation {
  import opened Results
  import opened Bytes
  import opened Frames

  /** Link-layer framing: `head` holds the addresses, which the parser skips. */
  datatype Link =
    | Ethernet(head: seq<Byte>)
    | Vlan(head: seq<Byte>, tci: U16)
    | LinuxSll(head: seq<Byte>)
  {
    predicate Valid() {
      |head| == if LinuxSll? then 14 else 12
    }

    function LinkType(): nat {
      if LinuxSll? then DLT_LINUX_SLL else DLT_EN10MB
    }

    function Header(): seq<Byte> {
      head + (if Vlan? then [0x81, 0x00] + Store16(tci, Big) else []) + [0x08, 0x00]
    }
  }

  /** An IPv4 header; `a` and `b` are the fields that the parser does not look at, options included. */
  datatype Ip = Ip(ihl: nat, a: seq<Byte>, b: seq<Byte>) {
    predicate Valid() {
      5 <= ihl <= 15 && |a| == 8 && |b| == 4 * ihl - 10
    }

    function Header(): seq<Byte>
      requires Valid()
    {
      [0x40 + ihl] + a + [IPPROTO_UDP] + b
    }
  }

  function UdpDatagram(srcPort: U16, dstPort: U16, checksum: U16, payload: seq<Byte>): (u: seq<Byte>)
    requires |payload| + 8 < 0x1_0000
    ensures |u| == 8 + |payload|
  {
    Store16(srcPort, Big) + Store16(dstPort, Big) + Store16(8 + |payload|, Big) + Store16(checksum, Big) + payload
  }

  /** A whole frame, with trailing padding. */
  function Build(link: Link, ip: Ip, udp: seq<Byte>, padding: seq<Byte>): seq<Byte>
    requires ip.Valid()
  {
    link.Header() + ip.Header() + udp + padding
  }

  lemma LinkIsStripped(link: Link, body: seq<Byte>)
    requires link.Valid()
    ensures LinkPayload(link.LinkType(), link.Header() + body) == Some(Packet(ETHERTYPE_IP, body))
  {
    var f := link.Header() + body;
    var n := |link.Header()|;
    assert f[n..] == body;
    assert f[n - 2] == 0x08 && f[n - 1] == 0x00;
    if link.Vlan? {
      assert f[12] == 0x81 && f[13] == 0x00;
    }
  }

  lemma IpIsStripped(ip: Ip, body: seq<Byte>)
    requires ip.Valid()
    ensures IpPayload(Packet(ETHERTYPE_IP, ip.Header() + body)) == Some(body)
  {
    var p := ip.Header() + body;
    assert p[0] == 0x40 + ip.ihl && p[9] == IPPROTO_UDP;
    assert p[4 * ip.ihl..] == body;
  }

  lemma UdpIsStripped(srcPort: U16, dstPort: U16, checksum: U16, payload: seq<Byte>, padding: seq<Byte>)
    requires |payload| + 8 < 0x1_0000
    ensures var u := UdpDatagram(srcPort, dstPort, checksum, payload) + padding;
            8 <= |u| && UdpPayload(u) == Some(payload) && Load16(u, 2) == Swap16(dstPort)
  {
    var u := UdpDatagram(srcPort, dstPort, checksum, payload) + padding;
    assert u[2] == dstPort / 0x100 && u[3] == dstPort % 0x100;
    assert u[4] == (8 + |payload|) / 0x100 && u[5] == (8 + |payload|) % 0x100;
    assert u[8..8 + |payload|] == payload;
  }

  /** The parser finds in a built frame the datagram that was put there. */
  lemma SegmentOfBuilt(link: Link, ip: Ip, udp: seq<Byte>, padding: seq<Byte>)
    requires link.Valid() && ip.Valid() && 8 <= |udp|
    ensures Segment(link.LinkType(), Build(link, ip, udp, padding)) == Some(udp + padding)
  {
    hide LinkPayload, IpPayload;
    var rest := ip.Header() + (udp + padding);
    assert Build(link, ip, udp, padding) == link.Header() + rest;
    LinkIsStripped(link, rest);
    IpIsStripped(ip, udp + padding);
  }

  /** Round trip: a frame built around any payload is delivered once, with exactly that payload, to the
      handler subscribed to its destination port, and to nobody if there is none. */
  lemma PayloadReachesItsPort(fileLink: nat, table: Table, hot: HotEntry, ts: Timespec, link: Link, ip: Ip,
                              srcPort: U16, dstPort: U16, checksum: U16, payload: seq<Byte>, padding: seq<Byte>)
    requires link.Valid() && ip.Valid() && |payload| + 8 < 0x1_0000
    requires |Build(link, ip, UdpDatagram(srcPort, dstPort, checksum, payload), padding)| < 0x1_0000_0000
    requires Coherent(table, hot) && (fileLink == DLT_EN10MB ==> link.LinkType() == DLT_EN10MB)
    ensures var data := Build(link, ip, UdpDatagram(srcPort, dstPort, checksum, payload), padding);
            var sub := table[Swap16(dstPort)];
            ParseAndDispatch(fileLink, table, hot, Frame(ts, |data|, data, link.LinkType())).out ==
            if sub.handler == 0 then None else Some(Delivery(sub.handler, sub.context, payload, STATUS_OK, ts))
  {
    var udp := UdpDatagram(srcPort, dstPort, checksum, payload);
    var data := Build(link, ip, udp, padding);
    SegmentOfBuilt(link, ip, udp, padding);
    UdpIsStripped(srcPort, dstPort, checksum, payload, padding);
    CachedDispatchIsRoute(fileLink, table, hot, Frame(ts, |data|, data, link.LinkType()));
  }

  /** Two ports never share a table entry: `htons` is a bijection. */
  lemma PortsHaveTheirOwnEntry(p: U16, q: U16)
    ensures Swap16(p) == Swap16(q) <==> p == q
  {
    Swap16Involutive(p);
    Swap16Involutive(q);
  }

  /** Subscribing to one port changes the fate of frames for that port only. */
  lemma SubscriptionIsLocal(table: Table, sub: Subscription, port: U16, other: U16, ts: Timespec, u: seq<Byte>)
    requires 8 <= |u| && Load16(u, 2) == Swap16(other) && port != other
    ensures RouteSegment(table[Swap16(port) := sub], ts, Some(u)) == RouteSegment(table, ts, Some(u))
  {
    PortsHaveTheirOwnEntry(port, other);
  }

  // ---------- Where the cache and the fast path show ----------

  /** The smallest frame for a port: 42 bytes around an empty payload. */
  function Smallest(port: U16): (data: seq<Byte>)
    ensures |data| == 42
  {
    Build(Ethernet(Zeros(12)), Ip(5, Zeros(8), Zeros(10)), UdpDatagram(0, port, 0, []), [])
  }

  function SmallestFrame(port: U16, len: U32): Frame {
    Frame(Timespec(0, 0), len, Smallest(port), DLT_EN10MB)
  }

  lemma SmallestParses(port: U16)
    ensures var u := Segment(DLT_EN10MB, Smallest(port));
            u.Some? && Load16(u.value, 2) == Swap16(port) && UdpPayload(u.value) == Some([])
  {
    hide Segment, UdpDatagram, UdpPayload;
    SegmentOfBuilt(Ethernet(Zeros(12)), Ip(5, Zeros(8), Zeros(10)), UdpDatagram(0, port, 0, []), []);
    UdpIsStripped(0, port, 0, [], []);
  }

  lemma SmallestIsFast(port: U16, len: U32)
    requires len <= 42
    ensures TakesFastPath(DLT_EN10MB, SmallestFrame(port, len))
  {
    hide UdpDatagram;
    var data, ip := Smallest(port), Ip(5, Zeros(8), Zeros(10));
    assert data == Ethernet(Zeros(12)).Header() + ip.Header() + UdpDatagram(0, port, 0, []) + [];
    assert data[12] == 0x08 && data[13] == 0x00;
    assert data[14] == ip.Header()[0] && data[23] == ip.Header()[9];
  }

  /** What a port's entry makes of the smallest frame. */
  function EmptyDelivery(handler: nat, context: nat): Delivery {
    Delivery(handler, context, [], STATUS_OK, Timespec(0, 0))
  }

  /** The paths do part: of a frame with a byte more than was on the wire the fast path delivers the payload,
      and the slow path nothing. */
  lemma OverCapturedIsDelivered(table: Table, hot: HotEntry, port: U16)
    requires Coherent(table, hot) && table[Swap16(port)].handler != 0
    ensures var f := SmallestFrame(port, 41);
            var sub := table[Swap16(port)];
            && ParseAndDispatch(DLT_EN10MB, table, hot, f).out == Some(EmptyDelivery(sub.handler, sub.context))
            && SlowPath(table, hot, f) == Verdict(hot, None)
  {
    hide Smallest, Segment, TakesFastPath;
    SmallestParses(port);
    SmallestIsFast(port, 41);
  }

  /** A whole smallest frame goes to whatever `Lookup` finds, on either path. */
  lemma SmallestIsDelivered(fileLink: nat, table: Table, hot: HotEntry, port: U16)
    ensures ParseAndDispatch(fileLink, table, hot, SmallestFrame(port, 42)) ==
            match Lookup(table, hot, Swap16(port))
            case None => Verdict(hot, None)
            case Some(h) => Verdict(h, Some(EmptyDelivery(h.handler, h.context)))
    ensures Route(table, SmallestFrame(port, 42)) ==
            var sub := table[Swap16(port)];
            if sub.handler == 0 then None else Some(EmptyDelivery(sub.handler, sub.context))
  {
    hide Smallest, Segment, TakesFastPath;
    SmallestParses(port);
  }

  /** Coherence is not only enough: the cache goes unnoticed by every frame if and only if it is coherent. */
  lemma TransparentIffCoherent(fileLink: nat, table: Table, hot: HotEntry)
    ensures (forall f :: Proper(fileLink, f) ==> ParseAndDispatch(fileLink, table, hot, f).out == Route(table, f)) <==>
            Coherent(table, hot)
  {
    hide ParseAndDispatch, Route, Smallest;
    if Coherent(table, hot) {
      forall f | Proper(fileLink, f) ensures ParseAndDispatch(fileLink, table, hot, f).out == Route(table, f) {
        CachedDispatchIsRoute(fileLink, table, hot, f);
      }
    } else {
      var port := Swap16(hot.port);
      Swap16Involutive(hot.port);
      SmallestIsDelivered(fileLink, table, hot, port);
      assert Proper(fileLink, SmallestFrame(port, 42));
    }
  }

  /** A port subscribed again after a packet for it: the next packet still goes to the first handler. */
  function Resubscription(port: U16, first: Subscription, second: Subscription): seq<Op> {
    var packet := Parse(SmallestFrame(port, 42));
    [Subscribe(port, first.context, first.handler), packet, Subscribe(port, second.context, second.handler), packet]
  }

  lemma StaleHandlerIsCalled(fileLink: nat, port: U16, first: Subscription, second: Subscription)
    requires first.handler != 0 && second.handler != 0
    ensures var ops := Resubscription(port, first, second);
            var one, two := EmptyDelivery(first.handler, first.context), EmptyDelivery(second.handler, second.context);
            DispatchRun(fileLink, ops).out == [one, one] && RoutedRun(fileLink, ops) == [one, two]
  {
    hide ParseAndDispatch, Route, Smallest;
    var ops := Resubscription(port, first, second);
    var p := Swap16(port);
    var table1 := EmptyTable()[p := first];
    var table2 := table1[p := second];
    var hot := HotEntry(p, first.handler, first.context);
    SmallestIsDelivered(fileLink, table1, COLD, port);
    SmallestIsDelivered(fileLink, table2, hot, port);
    var one := EmptyDelivery(first.handler, first.context);
    assert ops[..1][..0] == [] && ops[..2][..1] == ops[..1] && ops[..3][..2] == ops[..2] && ops[..4] == ops;
    assert DispatchRun(fileLink, ops[..1]) == Dispatcher(table1, COLD, []) && RoutedRun(fileLink, ops[..1]) == [];
    assert DispatchRun(fileLink, ops[..2]) == Dispatcher(table1, hot, [one]) && RoutedRun(fileLink, ops[..2]) == [one];
    assert DispatchRun(fileLink, ops[..3]) == Dispatcher(table2, hot, [one]) && RoutedRun(fileLink, ops[..3]) == [one];
  }
}
