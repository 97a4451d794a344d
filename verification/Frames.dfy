/** From a captured frame to the handler of its UDP port.

    The frame is taken apart layer by layer, each layer a suffix of the one around it: this is the
    reference that both the fast and the slow parser of the receiver are proved against. */
module Frames {
  import opened Results
  import opened Bytes

  const DLT_EN10MB: nat := 1
  const DLT_LINUX_SLL: nat := 113
  const ETHERTYPE_IP: int := 0x0800
  const ETHERTYPE_VLAN: int := 0x8100
  const IPPROTO_UDP: int := 17
  const STATUS_OK: nat := 0

  datatype Timespec = Timespec(sec: int, nsec: int)

  /** A captured frame: `data` is what was captured, `len` the length it had on the wire. */
  datatype Frame = Frame(ts: Timespec, len: U32, data: seq<Byte>, linkType: nat)

  /** A handler is a function pointer; zero is null. */
  datatype Subscription = Subscription(context: nat, handler: nat)

  /** The one-entry cache in front of the port table; its port is in network byte order. */
  datatype HotEntry = HotEntry(port: U16, handler: nat, context: nat)

  /** One call of a handler. */
  datatype Delivery = Delivery(handler: nat, context: nat, payload: seq<Byte>, status: nat, ts: Timespec)

  /** What parsing one frame does: the cache afterwards, and the call made, if any. */
  datatype Verdict = Verdict(hot: HotEntry, out: Option<Delivery>)

  /** The port table, indexed by port in network byte order. */
  type Table = t: seq<Subscription> | |t| == 0x1_0000 witness seq(0x1_0000, _ => Subscription(0, 0))

  /** A new receiver's table and cache. */
  function EmptyTable(): Table {
    seq(0x1_0000, _ => Subscription(0, 0))
  }

  const COLD: HotEntry := HotEntry(0, 0, 0)

  // ---------- Layers ----------

  datatype Packet = Packet(proto: U16, body: seq<Byte>)

  /** Layer 2: Linux cooked capture, or Ethernet with at most one VLAN tag. */
  function LinkPayload(linkType: nat, f: seq<Byte>): Option<Packet> {
    if linkType == DLT_LINUX_SLL then
      if |f| < 16 then None else Some(Packet(Net16(f, 14), f[16..]))
    else if linkType == DLT_EN10MB then
      if |f| < 14 then None
      else if Net16(f, 12) != ETHERTYPE_VLAN then Some(Packet(Net16(f, 12), f[14..]))
      else if |f| < 18 then None
      else Some(Packet(Net16(f, 16), f[18..]))
    else None
  }

  /** Layer 3: what follows the header of an IPv4 packet that carries UDP. */
  function IpPayload(p: Packet): Option<seq<Byte>> {
    if p.proto != ETHERTYPE_IP || |p.body| < 20 || p.body[0] / 0x10 != 4 then None
    else
      var headerLen := p.body[0] % 0x10 * 4;
      if |p.body| < headerLen || p.body[9] != IPPROTO_UDP then None else Some(p.body[headerLen..])
  }

  /** The captured bytes from the UDP header on, if a whole UDP header was captured. */
  function Segment(linkType: nat, f: seq<Byte>): (u: Option<seq<Byte>>)
    ensures u.Some? ==> 8 <= |u.value|
  {
    match LinkPayload(linkType, f)
    case None => None
    case Some(p) =>
      match IpPayload(p)
      case None => None
      case Some(u) => if |u| < 8 then None else Some(u)
  }

  /** Layer 4: the payload that the UDP length field announces, if all of it was captured. */
  function UdpPayload(u: seq<Byte>): Option<seq<Byte>>
    requires 8 <= |u|
  {
    var udpLen := Net16(u, 4);
    if 8 <= udpLen <= |u| then Some(u[8..udpLen]) else None
  }

  // ---------- Dispatch ----------

  /** The cache entry to dispatch through: the present one if it is for this port, else the table's. */
  function Lookup(table: Table, hot: HotEntry, port: U16): Option<HotEntry> {
    if port == hot.port && hot.handler != 0 then Some(hot)
    else if table[port].handler == 0 then None
    else Some(HotEntry(port, table[port].handler, table[port].context))
  }

  function Deliver(table: Table, hot: HotEntry, ts: Timespec, segment: Option<seq<Byte>>): Verdict
    requires segment.Some? ==> 8 <= |segment.value|
  {
    if segment.None? then Verdict(hot, None)
    else
      match Lookup(table, hot, Load16(segment.value, 2))
      case None => Verdict(hot, None)
      case Some(h) =>
        match UdpPayload(segment.value)
        case None => Verdict(h, None)
        case Some(p) => Verdict(h, Some(Delivery(h.handler, h.context, p, STATUS_OK, ts)))
  }

  /** What `slowPathParse` does. */
  function SlowPath(table: Table, hot: HotEntry, f: Frame): Verdict {
    if |f.data| != f.len then Verdict(hot, None)
    else Deliver(table, hot, f.ts, Segment(f.linkType, f.data))
  }

  /** The test that sends a frame down the fast path; `fileLink` is the link type of the capture file. */
  predicate TakesFastPath(fileLink: nat, f: Frame) {
    && fileLink == DLT_EN10MB && f.len <= |f.data| && 42 <= |f.data|
    && f.data[12] == 0x08 && f.data[13] == 0x00 && f.data[14] / 0x10 == 4 && f.data[23] == IPPROTO_UDP
  }

  /** What `parseAndDispatch` does. */
  function ParseAndDispatch(fileLink: nat, table: Table, hot: HotEntry, f: Frame): Verdict {
    if TakesFastPath(fileLink, f) then Deliver(table, hot, f.ts, Segment(DLT_EN10MB, f.data))
    else SlowPath(table, hot, f)
  }

  /** The segment of an over-captured frame that only the fast path does anything about: one for the cached
      port with a payload to deliver, or one for another port that has a handler, which enters the cache even
      if there is nothing to deliver. */
  predicate Noticed(table: Table, hot: HotEntry, u: seq<Byte>)
    requires 8 <= |u|
  {
    var port := Load16(u, 2);
    if port == hot.port && hot.handler != 0 then 8 <= Net16(u, 4) <= |u| else table[port].handler != 0
  }

  /** For frames of the file's own link type, the fast path and the slow path part exactly when more was
      captured than was on the wire, the fast path is taken, a whole UDP header was captured, and `Noticed`
      holds of it: the slow path then does nothing. */
  lemma FastPathAgreesExactly(fileLink: nat, table: Table, hot: HotEntry, f: Frame)
    requires fileLink == DLT_EN10MB ==> f.linkType == DLT_EN10MB
    ensures ParseAndDispatch(fileLink, table, hot, f) != SlowPath(table, hot, f) <==>
            && f.len < |f.data| && TakesFastPath(fileLink, f)
            && Segment(DLT_EN10MB, f.data).Some?
            && Noticed(table, hot, Segment(DLT_EN10MB, f.data).value)
  {
    hide Segment;
    if f.len < |f.data| && TakesFastPath(fileLink, f) {
      assert SlowPath(table, hot, f) == Verdict(hot, None);
    }
  }

  // ---------- Which frames are delivered, by their bytes ----------

  /** An IPv4 header begins at `n`: behind an Ethernet header, one with a VLAN tag, or a Linux cooked header. */
  predicate IpAt(link: nat, data: seq<Byte>, n: nat) {
    && n + 20 <= |data| && data[n] / 16 == 4
    && (|| (link == 1 && n == 14 && data[12..14] == [0x08, 0x00])
        || (link == 1 && n == 18 && data[12..14] == [0x81, 0x00] && data[16..18] == [0x08, 0x00])
        || (link == 113 && n == 16 && data[14..16] == [0x08, 0x00]))
  }

  /** It announces UDP, and behind its `h` bytes a whole UDP header was captured. */
  predicate UdpAt(link: nat, data: seq<Byte>, n: nat, h: nat) {
    IpAt(link, data, n) && data[n + 9] == 17 && h == data[n] % 16 * 4 && n + h + 8 <= |data|
  }

  /** The parser finds a segment exactly in such a frame, and there. */
  lemma SegmentExactly(link: nat, data: seq<Byte>, u: seq<Byte>)
    ensures Segment(link, data) == Some(u) <==> exists n: nat, h: nat :: UdpAt(link, data, n, h) && u == data[n + h..]
  {
    if Segment(link, data).Some? {
      var n := if link == 113 then 16 else if Net16(data, 12) == ETHERTYPE_VLAN then 18 else 14;
      SegmentFound(link, data, n);
      assert UdpAt(link, data, n, data[n] % 16 * 4);
    }
    forall n: nat, h: nat | UdpAt(link, data, n, h) ensures Segment(link, data) == Some(data[n + h..]) {
      UdpIsSegment(link, data, n, h);
    }
  }

  lemma SegmentFound(link: nat, data: seq<Byte>, n: nat)
    requires Segment(link, data).Some?
    requires n == if link == 113 then 16 else if |data| >= 14 && Net16(data, 12) == ETHERTYPE_VLAN then 18 else 14
    ensures n < |data| && UdpAt(link, data, n, data[n] % 16 * 4)
  {
    var body := LinkPayload(link, data).value.body;
    assert body == data[n..];
    NetPair(data, n - 2);
    if link == 1 { NetPair(data, 12); }
  }

  /** The 16-bit number in network order, and its two bytes. */
  lemma NetPair(data: seq<Byte>, i: nat)
    requires i + 2 <= |data|
    ensures Net16(data, i) == 0x0800 <==> data[i..i + 2] == [0x08, 0x00]
    ensures Net16(data, i) == 0x8100 <==> data[i..i + 2] == [0x81, 0x00]
  {
    assert data[i..i + 2] == [data[i], data[i + 1]];
  }

  lemma UdpIsSegment(link: nat, data: seq<Byte>, n: nat, h: nat)
    requires UdpAt(link, data, n, h)
    ensures Segment(link, data) == Some(data[n + h..])
  {
    NetPair(data, n - 2);
    if link == 1 { NetPair(data, 12); }
    assert LinkPayload(link, data) == Some(Packet(0x0800, data[n..]));
    assert data[n..][h..] == data[n + h..];
  }

  /** The length of the capture lets the frame through: it was captured whole; or with more bytes than were on the
      wire, in an Ethernet file and without a VLAN tag. */
  predicate LengthPasses(fileLink: nat, f: Frame, n: nat) {
    |f.data| == f.len || (f.len < |f.data| && fileLink == 1 && 42 <= |f.data| && n == 14)
  }

  /** What becomes of a segment at `m`: its destination port, two bytes as they lie there, selects the cached handler or
      the one of the table, which is then cached; the length field, if it is neither too short nor beyond the
      capture, selects the payload. */
  function Outcome(table: Table, hot: HotEntry, ts: Timespec, data: seq<Byte>, m: nat): Verdict
    requires m + 8 <= |data|
  {
    var port: U16, len := data[m + 2] as int + 256 * data[m + 3] as int, 256 * data[m + 4] as int + data[m + 5] as int;
    var cached := port == hot.port && hot.handler != 0;
    var sub := if cached then Subscription(hot.context, hot.handler) else table[port];
    if sub.handler == 0 then Verdict(hot, None)
    else
      Verdict(HotEntry(port, sub.handler, sub.context),
              if len < 8 || |data| < m + len then None
              else Some(Delivery(sub.handler, sub.context, data[m + 8..m + len], 0, ts)))
  }

  /** Parsing and dispatch, exactly and by the bytes alone: a frame without a UDP header, or whose length does not
      pass, is dropped and changes nothing; any other comes to its outcome. */
  lemma DispatchExactly(fileLink: nat, table: Table, hot: HotEntry, f: Frame)
    requires fileLink == 1 ==> f.linkType == 1
    ensures (forall n: nat, h: nat :: UdpAt(f.linkType, f.data, n, h) ==> !LengthPasses(fileLink, f, n)) ==>
              ParseAndDispatch(fileLink, table, hot, f) == Verdict(hot, None)
    ensures forall n: nat, h: nat :: UdpAt(f.linkType, f.data, n, h) && LengthPasses(fileLink, f, n) ==>
              ParseAndDispatch(fileLink, table, hot, f) == Outcome(table, hot, f.ts, f.data, n + h)
  {
    hide ParseAndDispatch, Outcome, LengthPasses, Segment;
    forall n: nat, h: nat | UdpAt(f.linkType, f.data, n, h)
      ensures ParseAndDispatch(fileLink, table, hot, f) ==
              if LengthPasses(fileLink, f, n) then Outcome(table, hot, f.ts, f.data, n + h) else Verdict(hot, None)
    {
      DispatchUdp(fileLink, table, hot, f, n, h);
    }
    if Segment(f.linkType, f.data).None? {
      NoSegmentNoDispatch(fileLink, table, hot, f);
    } else {
      SegmentExactly(f.linkType, f.data, Segment(f.linkType, f.data).value);
    }
  }

  lemma NoSegmentNoDispatch(fileLink: nat, table: Table, hot: HotEntry, f: Frame)
    requires (fileLink == 1 ==> f.linkType == 1) && Segment(f.linkType, f.data).None?
    ensures ParseAndDispatch(fileLink, table, hot, f) == Verdict(hot, None)
  {
    hide Segment;
  }

  lemma DispatchUdp(fileLink: nat, table: Table, hot: HotEntry, f: Frame, n: nat, h: nat)
    requires (fileLink == 1 ==> f.linkType == 1) && UdpAt(f.linkType, f.data, n, h)
    ensures ParseAndDispatch(fileLink, table, hot, f) ==
            if LengthPasses(fileLink, f, n) then Outcome(table, hot, f.ts, f.data, n + h) else Verdict(hot, None)
  {
    hide Segment, Outcome, Deliver;
    UdpIsSegment(f.linkType, f.data, n, h);
    DeliverIsOutcome(table, hot, f.ts, f.data, n + h);
    if f.len < |f.data| && fileLink == 1 {
      assert TakesFastPath(fileLink, f) <==> 42 <= |f.data| && n == 14 by { FastIsUntagged(fileLink, f, n, h); }
    }
  }

  lemma FastIsUntagged(fileLink: nat, f: Frame, n: nat, h: nat)
    requires fileLink == 1 && f.linkType == 1 && UdpAt(1, f.data, n, h) && f.len <= |f.data|
    ensures TakesFastPath(fileLink, f) <==> 42 <= |f.data| && n == 14
  {
    assert f.data[12..14] == [f.data[12], f.data[13]];
  }

  lemma DeliverIsOutcome(table: Table, hot: HotEntry, ts: Timespec, data: seq<Byte>, m: nat)
    requires m + 8 <= |data|
    ensures Deliver(table, hot, ts, Some(data[m..])) == Outcome(table, hot, ts, data, m)
  {
    var u := data[m..];
    var len := Net16(u, 4);
    if 8 <= len <= |u| { assert u[8..len] == data[m + 8..m + len]; }
  }

  /** A frame that was cut short by the capture reaches no handler and leaves the cache alone. */
  lemma TruncatedNeverDelivered(fileLink: nat, table: Table, hot: HotEntry, f: Frame)
    requires |f.data| < f.len
    ensures ParseAndDispatch(fileLink, table, hot, f) == Verdict(hot, None)
  {
  }

  // ---------- The hot cache ----------

  ghost predicate Coherent(table: Table, hot: HotEntry) {
    hot.handler != 0 ==> table[hot.port] == Subscription(hot.context, hot.handler)
  }

  function RouteSegment(table: Table, ts: Timespec, segment: Option<seq<Byte>>): Option<Delivery>
    requires segment.Some? ==> 8 <= |segment.value|
  {
    if segment.None? || UdpPayload(segment.value).None? then None
    else
      var sub := table[Load16(segment.value, 2)];
      if sub.handler == 0 then None
      else Some(Delivery(sub.handler, sub.context, UdpPayload(segment.value).value, STATUS_OK, ts))
  }

  /** Dispatch without a cache: a plain look-up in the table. */
  function Route(table: Table, f: Frame): Option<Delivery> {
    if |f.data| != f.len then None
    else RouteSegment(table, f.ts, Segment(f.linkType, f.data))
  }

  /** A frame as the replay engine produces it: captured whole or cut short, and of the file's link type
      if the file has one that selects the fast path. */
  predicate Proper(fileLink: nat, f: Frame) {
    |f.data| <= f.len && (fileLink == DLT_EN10MB ==> f.linkType == DLT_EN10MB)
  }

  /** With a coherent cache a packet is routed as by the table alone, and the cache stays coherent. */
  lemma CachedDispatchIsRoute(fileLink: nat, table: Table, hot: HotEntry, f: Frame)
    requires Coherent(table, hot) && Proper(fileLink, f)
    ensures var v := ParseAndDispatch(fileLink, table, hot, f);
            v.out == Route(table, f) && Coherent(table, v.hot)
  {
    FastPathAgreesExactly(fileLink, table, hot, f);
  }

  /** What a frame comes to with an empty cache in front of the table. */
  function Uncached(fileLink: nat, table: Table, f: Frame): Option<Delivery> {
    ParseAndDispatch(fileLink, table, COLD, f).out
  }

  /** A coherent cache goes unnoticed by every frame, over-captured ones included. */
  lemma CacheUnnoticed(fileLink: nat, table: Table, hot: HotEntry, f: Frame)
    requires Coherent(table, hot)
    ensures var v := ParseAndDispatch(fileLink, table, hot, f);
            v.out == Uncached(fileLink, table, f) && Coherent(table, v.hot)
  {
    hide Segment, TakesFastPath;
  }

  /** Subscribing breaks coherence exactly when it gives the cached port another handler or context. */
  lemma SubscribeBreaksCoherenceExactly(table: Table, hot: HotEntry, port: U16, sub: Subscription)
    requires Coherent(table, hot)
    ensures Coherent(table[Swap16(port) := sub], hot) <==>
            !(hot.handler != 0 && hot.port == Swap16(port) && sub != Subscription(hot.context, hot.handler))
  {
  }

  datatype Op =
    | Parse(f: Frame)
    | Subscribe(port: U16, context: nat, handler: nat)
    | Unsubscribe(port: U16)

  datatype Dispatcher = Dispatcher(table: Table, hot: HotEntry, out: seq<Delivery>)

  function Append(out: seq<Delivery>, d: Option<Delivery>): seq<Delivery> {
    if d.Some? then out + [d.value] else out
  }

  /** `subscribe` refuses a null handler; `unsubscribe` always fails, since no port is ever entered in
      the base class's port map. */
  function DispatchStep(fileLink: nat, d: Dispatcher, op: Op): Dispatcher {
    match op
    case Parse(f) =>
      var v := ParseAndDispatch(fileLink, d.table, d.hot, f);
      Dispatcher(d.table, v.hot, Append(d.out, v.out))
    case Subscribe(port, context, handler) =>
      if handler == 0 then d else d.(table := d.table[Swap16(port) := Subscription(context, handler)])
    case Unsubscribe(port) => d
  }

  /** `subscribe` and `unsubscribe`, exactly: a null handler is refused, any other becomes the entry of its port, the
      table entry at the port with its two bytes exchanged; every other entry, the cache and the calls made stay as they
      were; and `unsubscribe` changes nothing. */
  lemma SubscriptionsAreExact(fileLink: nat, d: Dispatcher, port: U16, context: nat, handler: nat)
    ensures var d' := DispatchStep(fileLink, d, Subscribe(port, context, handler));
            && d'.hot == d.hot && d'.out == d.out
            && (forall p: U16 :: d'.table[p] ==
                  if handler != 0 && p == port % 256 * 256 + port / 256 then Subscription(context, handler)
                  else d.table[p])
    ensures DispatchStep(fileLink, d, Unsubscribe(port)) == d
  {
  }

  function DispatchRun(fileLink: nat, ops: seq<Op>): Dispatcher {
    if ops == [] then Dispatcher(EmptyTable(), COLD, [])
    else DispatchStep(fileLink, DispatchRun(fileLink, ops[..|ops| - 1]), ops[|ops| - 1])
  }

  /** The deliveries of the same run with plain look-ups. */
  function RoutedRun(fileLink: nat, ops: seq<Op>): seq<Delivery> {
    if ops == [] then []
    else
      var before := RoutedRun(fileLink, ops[..|ops| - 1]);
      match ops[|ops| - 1]
      case Parse(f) => Append(before, Route(DispatchRun(fileLink, ops[..|ops| - 1]).table, f))
      case _ => before
  }

  predicate Subscribes(op: Op, port: U16) {
    op.Subscribe? && op.port == port && op.handler != 0
  }

  ghost predicate NoResubscription(ops: seq<Op>) {
    forall i, j, port :: 0 <= i < j < |ops| && Subscribes(ops[i], port) ==> !Subscribes(ops[j], port)
  }

  ghost predicate AllProper(fileLink: nat, ops: seq<Op>) {
    forall i :: 0 <= i < |ops| && ops[i].Parse? ==> Proper(fileLink, ops[i].f)
  }

  lemma {:induction false} FilledWasSubscribed(fileLink: nat, ops: seq<Op>, port: U16)
    ensures DispatchRun(fileLink, ops).table[Swap16(port)].handler != 0 ==>
              exists i :: 0 <= i < |ops| && Subscribes(ops[i], port)
    decreases |ops|
  {
    if ops != [] {
      var init, last := ops[..|ops| - 1], ops[|ops| - 1];
      FilledWasSubscribed(fileLink, init, port);
      if exists i :: 0 <= i < |init| && Subscribes(init[i], port) {
        var i :| 0 <= i < |init| && Subscribes(init[i], port);
        assert Subscribes(ops[i], port);
      }
      if last.Subscribe? && last.port != port {
        Swap16Involutive(port);
        Swap16Involutive(last.port);
      }
    }
  }

  lemma {:induction false} StaysCoherent(fileLink: nat, ops: seq<Op>)
    requires NoResubscription(ops) && AllProper(fileLink, ops)
    ensures Coherent(DispatchRun(fileLink, ops).table, DispatchRun(fileLink, ops).hot)
    decreases |ops|
  {
    if ops != [] {
      var init, last := ops[..|ops| - 1], ops[|ops| - 1];
      var d := DispatchRun(fileLink, init);
      assert NoResubscription(init) by {
        forall i, j, port | 0 <= i < j < |init| && Subscribes(init[i], port) ensures !Subscribes(init[j], port) {
          assert Subscribes(ops[i], port);
        }
      }
      StaysCoherent(fileLink, init);
      match last
      case Parse(f) => CachedDispatchIsRoute(fileLink, d.table, d.hot, f);
      case Subscribe(port, context, handler) =>
        if handler != 0 && d.hot.handler != 0 && d.hot.port == Swap16(port) {
          FilledWasSubscribed(fileLink, init, port);
          var i :| 0 <= i < |init| && Subscribes(init[i], port);
          assert Subscribes(ops[i], port) && Subscribes(ops[|init|], port);
        }
      case Unsubscribe(_) =>
    }
  }

  /** Over every run of packets, subscriptions and cancellations in which no port is subscribed twice,
      the cache makes no difference to what the handlers are given. */
  lemma {:induction false} CacheIsTransparent(fileLink: nat, ops: seq<Op>)
    requires NoResubscription(ops) && AllProper(fileLink, ops)
    ensures DispatchRun(fileLink, ops).out == RoutedRun(fileLink, ops)
    decreases |ops|
  {
    if ops != [] {
      var init, last := ops[..|ops| - 1], ops[|ops| - 1];
      var d := DispatchRun(fileLink, init);
      assert NoResubscription(init) by {
        forall i, j, port | 0 <= i < j < |init| && Subscribes(init[i], port) ensures !Subscribes(init[j], port) {
          assert Subscribes(ops[i], port);
        }
      }
      CacheIsTransparent(fileLink, init);
      StaysCoherent(fileLink, init);
      if last.Parse? { CachedDispatchIsRoute(fileLink, d.table, d.hot, last.f); }
    }
  }
}
