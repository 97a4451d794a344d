/** The capture receiver in the form of the source: an object with a cursor into the mapped file, a port
    table, a one-entry cache, an interface table, and the state of the replay clock.  Every method is
    proved to make exactly the step of the replay model that its contract names. */
module PcapReceiverClass {
  import opened Results
  import opened Bytes
  import opened TimerQueue
  import opened Frames
  import opened Timestamps
  import opened Captures
  import R = ReplayModel
  import L = LoopModel
  import EL = EventLoopClass

  class PcapReceiver {
    const loop: EL.EventLoop
    const mode: R.ReplayMode
    const batchSize: int
    const maxFds: int

    // The base class's map from ports to sockets; nothing ever enters a port.
    var portToFd: map<int, int>

    // The mapped file.
    var mapped: bool
    var file: seq<Byte>
    var currentPtr: nat
    var isPcapNg: bool
    var swapped: bool
    var isNanosecond: bool
    var linkType: U32

    // Subscriptions, and the cache in front of them.
    var portTable: array<Subscription>
    var hotPort: U16
    var hotHandler: nat
    var hotContext: nat

    // Replay state.
    var pcapStart: Timespec
    var wallStart: nat
    var firstPacket: bool
    var finished: bool
    var interfaces: map<nat, Interface>
    var interfaceCount: nat

    ghost var out: seq<Delivery>
    ghost var played: seq<R.Played>

    ghost function Cap(): Capture
      reads this
    {
      Capture(file, isPcapNg, swapped, isNanosecond, linkType)
    }

    ghost function Cfg(): R.Config
      reads this
    {
      R.Config(Cap(), mode, batchSize)
    }

    ghost function Pos(): Position
      reads this
    {
      Position(currentPtr, interfaces, interfaceCount)
    }

    ghost function Hot(): HotEntry
      reads this
    {
      HotEntry(hotPort, hotHandler, hotContext)
    }

    ghost function Dispatch(): Dispatcher
      requires portTable.Length == 0x1_0000
      reads this, portTable
    {
      Dispatcher(portTable[..], Hot(), out)
    }

    ghost function Rx(): R.Receiver
      requires portTable.Length == 0x1_0000
      reads this, portTable
    {
      R.Receiver(Pos(), finished, firstPacket, pcapStart, wallStart, Dispatch(), played)
    }

    /** The state of the replay model that the object and its loop stand for. */
    ghost function World(): R.World
      requires portTable.Length == 0x1_0000
      reads this, portTable, loop
    {
      R.World(loop.View(), Rx())
    }

    ghost predicate Intact()
      reads this, loop
    {
      portTable.Length == 0x1_0000 && portToFd == map[] && loop.Valid()
    }

    /** The receiver may be stepped: reading on from the cursor meets nothing undefined. */
    ghost predicate Valid()
      reads this, loop
    {
      Intact() && (mapped ==> Safe(Cap(), Pos()))
    }

    /** The fields that `open` sets have their initial values. */
    ghost predicate Unopened()
      reads this
    {
      && !mapped && currentPtr == 0 && interfaces == map[] && interfaceCount == 0
      && isPcapNg && !swapped && !isNanosecond && linkType == 0
    }

    constructor (loop: EL.EventLoop, mode: R.ReplayMode, batchSize: int, maxFds: int)
      requires loop.Valid()
      ensures Valid() && this.loop == loop && this.mode == mode && this.batchSize == batchSize && this.maxFds == maxFds
      ensures Unopened() && !finished && firstPacket && Dispatch() == Dispatcher(EmptyTable(), COLD, []) && played == []
      ensures fresh(portTable)
    {
      this.loop, this.mode, this.batchSize, this.maxFds := loop, mode, batchSize, maxFds;
      portToFd := map[];
      mapped, file, currentPtr := false, [], 0;
      isPcapNg, swapped, isNanosecond, linkType := true, false, false, 0;
      portTable := new Subscription[0x1_0000](_ => Subscription(0, 0));
      hotPort, hotHandler, hotContext := 0, 0, 0;
      pcapStart, wallStart, firstPacket, finished := Timespec(0, 0), 0, true, false;
      interfaces, interfaceCount := map[], 0;
      out, played := [], [];
    }

    // ---------- Subscriptions ----------

    /** The base class's checks. */
    method CheckSubscribe(port: U16, handler: nat) returns (r: Result<int>)
      requires portToFd == map[]
      ensures r == if handler == 0 then Err(EINVAL) else Ok(0)
    {
      if handler == 0 {
        return Err(EINVAL);
      }
      if maxFds > 0 && |portToFd| >= maxFds {
        return Err(EMFILE);
      }
      if port in portToFd {
        return Err(EADDRINUSE);
      }
      return Ok(0);
    }

    /** A handler that is not null is always accepted, also for a port that has one already. */
    method Subscribe(port: U16, context: nat, handler: nat) returns (r: Result<int>)
      requires Intact()
      modifies portTable
      ensures Intact() && (Valid() <==> old(Valid()))
      ensures r == if handler == 0 then Err(EINVAL) else Ok(port)
      ensures World() == R.Apply(loop.elapsed, Cfg(), old(World()), R.SubscribeStep(port, context, handler))
    {
      hide EL.EventLoop.Valid;
      var base := CheckSubscribe(port, handler);
      if base.Err? {
        return base;
      }
      var netPort := Swap16(port);
      portTable[netPort] := Subscription(context, handler);
      assert portTable[..] == old(portTable[..])[netPort := Subscription(context, handler)];
      return Ok(port);
    }

    /** `unsubscribe` fails for every port and changes nothing. */
    method Unsubscribe(port: U16) returns (r: Result<()>)
      requires Intact()
      ensures r == Err(ENOENT)
    {
      if port in portToFd {
        assert false;  // no port is ever entered in the map
      }
      return Err(ENOENT);
    }

    // ---------- Parsing ----------

    /** The look-up with the cache in front: afterwards the cache holds the handler to call, if any. */
    method LookUp(port: U16) returns (found: bool)
      requires portTable.Length == 0x1_0000
      modifies this`hotPort, this`hotHandler, this`hotContext
      ensures found == Lookup(portTable[..], old(Hot()), port).Some?
      ensures Hot() == if found then Lookup(portTable[..], old(Hot()), port).value else old(Hot())
    {
      if port != hotPort || hotHandler == 0 {
        var sub := portTable[port];
        if sub.handler == 0 {
          return false;
        }
        hotPort := port;
        hotHandler := sub.handler;
        hotContext := sub.context;
      }
      return true;
    }

    /** The frame of `caplen` bytes at `packet`. */
    ghost function FrameAt(ts: Timespec, caplen: nat, len: U32, packet: nat, link: nat): Frame
      requires packet + caplen <= |file|
      reads this
    {
      Frame(ts, len, file[packet..packet + caplen], link)
    }

    /** Layer 2 of the slow path. */
    method StripLink(caplen: nat, packet: nat, link: nat) returns (ok: bool, ptr: nat, remaining: nat, proto: U16)
      requires packet + caplen <= |file|
      ensures var body := LinkPayload(link, file[packet..packet + caplen]);
              && ok == body.Some?
              && (ok ==> packet <= ptr && ptr + remaining == packet + caplen &&
                         body.value == Packet(proto, file[ptr..packet + caplen]))
    {
      hide Swap16, Load16, Net16;
      ghost var data := file[packet..packet + caplen];
      ok, ptr, remaining, proto := false, packet, caplen, 0;
      if link == DLT_LINUX_SLL {
        if remaining < 16 {
          return;
        }
        SwapIsNet16(file, ptr + 14);
        SameNet16(file, packet, packet + caplen, 14);
        proto := Swap16(Load16(file, ptr + 14));
        ptr, remaining := ptr + 16, remaining - 16;
        assert data[16..] == file[ptr..packet + caplen];
      } else if link == DLT_EN10MB {
        if remaining < 14 {
          return;
        }
        SwapIsNet16(file, ptr + 12);
        SameNet16(file, packet, packet + caplen, 12);
        proto := Swap16(Load16(file, ptr + 12));
        ptr, remaining := ptr + 14, remaining - 14;
        assert data[14..] == file[ptr..packet + caplen];
        if proto == ETHERTYPE_VLAN {
          if remaining < 4 {
            return;
          }
          SwapIsNet16(file, ptr + 2);
          SameNet16(file, packet, packet + caplen, 16);
          proto := Swap16(Load16(file, ptr + 2));
          ptr, remaining := ptr + 4, remaining - 4;
          assert data[18..] == file[ptr..packet + caplen];
        }
      } else {
        return;
      }
      ok := true;
    }

    /** Layers 2 and 3 of the slow path: where the UDP header is. */
    method FindUdp(caplen: nat, packet: nat, link: nat) returns (ok: bool, ptr: nat, remaining: nat)
      requires packet + caplen <= |file|
      ensures var u := Segment(link, file[packet..packet + caplen]);
              && ok == u.Some?
              && (ok ==> packet <= ptr && 8 <= remaining && ptr + remaining == packet + caplen &&
                         u.value == file[ptr..packet + caplen])
    {
      hide LinkPayload;
      var proto: U16;
      ok, ptr, remaining, proto := StripLink(caplen, packet, link);
      if !ok {
        return;
      }
      ok := false;
      ghost var body := file[ptr..packet + caplen];
      if proto != ETHERTYPE_IP {
        return;
      }
      if remaining < 20 {
        return;
      }
      assert body[0] == file[ptr] && body[9] == file[ptr + 9];
      if file[ptr] / 0x10 != 4 {
        return;
      }
      var ipLen := file[ptr] % 0x10 * 4;
      if remaining < ipLen {
        return;
      }
      if file[ptr + 9] != IPPROTO_UDP {
        return;
      }
      assert body[ipLen..] == file[ptr + ipLen..packet + caplen];
      ptr, remaining := ptr + ipLen, remaining - ipLen;
      if remaining < 8 {
        return;
      }
      ok := true;
    }

    method SlowPathParse(ts: Timespec, caplen: nat, len: U32, packet: nat, link: nat)
      requires portTable.Length == 0x1_0000 && packet + caplen <= |file|
      modifies this`hotPort, this`hotHandler, this`hotContext, this`out
      ensures var v := SlowPath(portTable[..], old(Hot()), FrameAt(ts, caplen, len, packet, link));
              Hot() == v.hot && out == Append(old(out), v.out)
    {
      hide Segment, Swap16, Load16, Net16, Lookup;
      if caplen != len {
        return;
      }
      var ok, ptr, remaining := FindUdp(caplen, packet, link);
      if !ok {
        return;
      }
      ghost var u := file[ptr..packet + caplen];
      SameUdpFields(file, ptr, packet + caplen);
      var found := LookUp(Load16(file, ptr + 2));
      if !found {
        return;
      }
      var udpLen := Swap16(Load16(file, ptr + 4));
      if udpLen < 8 {
        return;
      }
      var dataLen := udpLen - 8;
      ptr, remaining := ptr + 8, remaining - 8;
      if remaining < dataLen {
        return;
      }
      SliceOfSlice(file, ptr - 8, packet + caplen, 8, udpLen);
      out := out + [Delivery(hotHandler, hotContext, file[ptr..ptr + dataLen], STATUS_OK, ts)];
    }

    /** The fast path, for a frame that has passed its test: fixed offsets instead of layers. */
    method FastPath(ts: Timespec, caplen: nat, len: U32, packet: nat)
      requires portTable.Length == 0x1_0000 && packet + caplen <= |file|
      requires TakesFastPath(linkType, FrameAt(ts, caplen, len, packet, DLT_EN10MB))
      modifies this`hotPort, this`hotHandler, this`hotContext, this`out
      ensures var v := Deliver(portTable[..], old(Hot()), ts, Segment(DLT_EN10MB, file[packet..packet + caplen]));
              Hot() == v.hot && out == Append(old(out), v.out)
    {
      hide Swap16, Load16, Net16, Lookup, Segment;
      ghost var data := file[packet..packet + caplen];
      assert data[14] == file[packet + 14];
      var ihl := file[packet + 14] % 0x10;
      var ipHeaderLen := ihl * 4;
      var totalHeaderLen := 14 + ipHeaderLen + 8;
      FastSegment(data);
      if caplen < totalHeaderLen {
        return;
      }
      var udp := packet + 14 + ipHeaderLen;
      ghost var u := data[14 + ipHeaderLen..];
      assert u == file[udp..packet + caplen];
      SameUdpFields(file, udp, packet + caplen);
      var found := LookUp(Load16(file, udp + 2));
      if !found {
        return;
      }
      var udpLen := Swap16(Load16(file, udp + 4));
      if udpLen < 8 {
        return;
      }
      if caplen < 14 + ipHeaderLen + udpLen {
        return;
      }
      var payload, payloadLen := packet + totalHeaderLen, udpLen - 8;
      SliceOfSlice(file, udp, packet + caplen, 8, udpLen);
      out := out + [Delivery(hotHandler, hotContext, file[payload..payload + payloadLen], STATUS_OK, ts)];
    }

    method ParseAndDispatch(ts: Timespec, caplen: nat, len: U32, packet: nat, link: nat)
      requires portTable.Length == 0x1_0000 && packet + caplen <= |file|
      modifies this`hotPort, this`hotHandler, this`hotContext, this`out
      ensures Dispatch() == DispatchStep(linkType, old(Dispatch()), Parse(FrameAt(ts, caplen, len, packet, link)))
    {
      hide Segment, Deliver, SlowPath;
      ghost var data := file[packet..packet + caplen];
      if linkType == DLT_EN10MB && caplen >= len && caplen >= 42 {
        assert data[12] == file[packet + 12] && data[13] == file[packet + 13];
        assert data[14] == file[packet + 14] && data[23] == file[packet + 23];
        if file[packet + 12] == 0x08 && file[packet + 13] == 0x00 && file[packet + 14] / 0x10 == 4 &&
           file[packet + 23] == IPPROTO_UDP {
          FastPath(ts, caplen, len, packet);
          return;
        }
      }
      SlowPathParse(ts, caplen, len, packet, link);
    }

    // ---------- Opening and rewinding ----------

    /** Byte order, resolution and link type of a legacy file; an unknown magic number changes nothing. */
    method ReadLegacyHeader(magic: U32)
      requires FILE_HEADER <= |file| && !swapped && !isNanosecond
      modifies this`swapped, this`isNanosecond, this`linkType
      ensures swapped == (magic == MAGIC_MICRO_LE || magic == MAGIC_NANO_LE)
      ensures isNanosecond == (magic == MAGIC_NANO_LE || magic == MAGIC_NANO_BE)
      ensures linkType == Field32(file, 20, swapped)
    {
      hide Load32, Swap32;
      if magic == MAGIC_MICRO_LE {
        swapped, isNanosecond := true, false;
      } else if magic == MAGIC_NANO_LE {
        swapped, isNanosecond := true, true;
      } else if magic == MAGIC_NANO_BE {
        swapped, isNanosecond := false, true;
      } else if magic == MAGIC_MICRO_BE {
        swapped, isNanosecond := false, false;
      }
      if swapped {
        linkType := Swap32(Load32(file, 20));
      } else {
        linkType := Load32(file, 20);
      }
    }

    /** `open`, given the bytes that were mapped.  A receiver is opened once.  After a failure the file stays
        mapped, and everything else is as it was.  Whether the records are well formed is not looked at: the
        receiver is ready to step just if they are. */
    method Open(bytes: seq<Byte>) returns (r: Result<()>)
      requires Intact() && Unopened()
      modifies this`mapped, this`file, this`currentPtr, this`isPcapNg, this`swapped, this`isNanosecond, this`linkType
      ensures r == if Captures.Open(bytes).Ok? then Ok(()) else Err(EINVAL)
      ensures mapped
      ensures r.Ok? ==> Cap() == Captures.Open(bytes).value && Pos() == Captures.Start(Cap())
      ensures Intact() && (Valid() <==> Safe(Cap(), Pos()))
      ensures r.Err? ==> Cap() == old(Cap()).(file := bytes) && Pos() == old(Pos())
    {
      hide Safe, Load32, Field32, EL.EventLoop.Valid;
      mapped, file := true, bytes;
      if |file| < FILE_HEADER {
        return Err(EINVAL);
      }
      var magic := Load32(file, 0);
      currentPtr := 0;
      if magic == MAGIC_PCAPNG_SHB {
        isPcapNg := true;
        var byteOrderMagic := Load32(file, 8);
        if byteOrderMagic == PCAPNG_BOM {
          swapped := false;
        } else if byteOrderMagic == PCAPNG_BOM_SWAP {
          swapped := true;
        } else {
          return Err(EINVAL);
        }
        isNanosecond := true;
      } else {
        isPcapNg := false;
        ReadLegacyHeader(magic);
        currentPtr := currentPtr + FILE_HEADER;
      }
      return Ok(());
    }

    /** `rewind` resets the cursor and the replay clock, but neither the interfaces nor the cache. */
    method Rewind()
      requires Intact()
      modifies this`currentPtr, this`finished, this`firstPacket
      ensures World() == R.Rewind(Cfg(), old(World()))
      ensures Intact() && (Valid() <==> (mapped ==> Safe(Cap(), Pos())))
    {
      hide EL.EventLoop.Valid;
      currentPtr := 0;
      if !isPcapNg {
        currentPtr := currentPtr + FILE_HEADER;
      }
      finished := false;
      firstPacket := true;
    }

    /** `start`: nothing without a file; in step mode only the replay clock is reset; else the first continuation
        is scheduled at once. */
    method Start()
      requires Intact()
      modifies this`firstPacket, loop
      ensures Intact() && (Valid() <==> old(Valid()))
      ensures World() == if mapped then R.StartReplay(loop.elapsed, Cfg(), old(World())) else old(World())
    {
      hide Safe, L.Perform, EL.EventLoop.Valid;
      if !mapped {
        return;
      }
      firstPacket := true;
      if mode == R.Manual {
        return;
      }
      var _ := loop.RunAfter(0, ReplayBatch);
    }

    // ---------- Stepping ----------

    method CalculateTargetTime(ts: Timespec) returns (target: int)
      requires Valid()
      modifies this`pcapStart, this`wallStart, this`firstPacket, loop
      ensures Valid() && World() == R.Aim(loop.elapsed, old(World()), ts) && target == R.TargetTime(Rx(), ts)
    {
      hide Safe, EL.EventLoop.Valid;
      if firstPacket {
        pcapStart := ts;
        var now := loop.ReadClock();
        wallStart := now;
        firstPacket := false;
        FirstTarget(Rx(), ts);
        return wallStart;
      }
      var diffSec := ts.sec - pcapStart.sec;
      var diffNs := ts.nsec - pcapStart.nsec;
      if diffNs < 0 {
        diffSec := diffSec - 1;
        diffNs := diffNs + NS_PER_SEC;
      }
      return wallStart + diffSec * NS_PER_SEC + diffNs;
    }

    /** The timed-mode test: is a packet of time `ts` due?  If not, a continuation is scheduled. */
    method IsDue(ts: Timespec) returns (due: bool)
      requires Valid()
      modifies this`pcapStart, this`wallStart, this`firstPacket, loop
      ensures Valid()
      ensures var aimed := R.Aim(loop.elapsed, old(World()), ts);
              var target, now := R.TargetTime(aimed.rx, ts), aimed.(loop := L.Tick(loop.elapsed, aimed.loop));
              && due == (target <= now.loop.clock)
              && World() == if due then now else R.Wait(loop.elapsed, now, target)
    {
      hide Safe, L.Perform, L.Tick, R.Aim, R.TargetTime, EL.EventLoop.Valid;
      var target := CalculateTargetTime(ts);
      var now := loop.ReadClock();
      if target > now {
        var delay := (target - now) / NS_PER_MS;
        var _ := loop.RunAfter(delay, ReplayBatch);
        return false;
      }
      return true;
    }

    method Play(ts: Timespec, caplen: nat, len: U32, packet: nat, link: nat, next: nat)
      requires Valid() && packet + caplen <= |file| && (mapped ==> Safe(Cap(), Pos().(cursor := next)))
      modifies this`hotPort, this`hotHandler, this`hotContext, this`currentPtr, this`out, this`played
      ensures Valid()
      ensures World() == R.Play(Cfg(), old(World()), old(FrameAt(ts, caplen, len, packet, link)),
                                old(Pos()).(cursor := next))
    {
      hide Safe, DispatchStep, EL.EventLoop.Valid;
      ParseAndDispatch(ts, caplen, len, packet, link);
      played := played + [R.Played(FrameAt(ts, caplen, len, packet, link), loop.clock, portTable[..])];
      currentPtr := next;
    }

    /** The common end of both step functions, for the packet found at the cursor: in timed mode the test
        whether it is due, then parsing, and moving on to `next`. */
    method PlayOrWait(ts: Timespec, caplen: nat, len: U32, packet: nat, link: nat, next: nat) returns (more: bool)
      requires Valid() && mapped && packet + caplen <= |file|
      requires Captures.Next(Cap(), Pos()) ==
               AtPacket(Pos(), FrameAt(ts, caplen, len, packet, link), Pos().(cursor := next))
      modifies this`pcapStart, this`wallStart, this`firstPacket, this`hotPort, this`hotHandler, this`hotContext,
               this`currentPtr, this`out, this`played, loop
      ensures Valid()
      ensures R.StepResult(World(), more) == R.InternalStep(loop.elapsed, Cfg(), old(World()))
    {
      hide Safe, L.Perform, L.Tick, Captures.Next, R.Aim, R.TargetTime, DispatchStep, R.Play, R.Wait;
      hide R.InternalStep, EL.EventLoop.Valid, EL.EventLoop.View;
      DecodePacket(Cap(), Pos());
      StepAtPacket(loop.elapsed, Cfg(), World());
      if mode == R.Timed {
        var due := IsDue(ts);
        if !due {
          return false;
        }
      }
      Play(ts, caplen, len, packet, link, next);
      return true;
    }

    /** The loop over the options of an interface description block: the announced resolution. */
    method ReadOptions(start: nat, blockEnd: nat) returns (divisor: U64)
      requires blockEnd + 4 <= |file| && ScanOptions(file, swapped, start, blockEnd, 1_000_000).Some?
      ensures ScanOptions(file, swapped, start, blockEnd, 1_000_000) == Some(divisor)
    {
      divisor := 1_000_000;
      var optPtr := start;
      while optPtr + 4 <= blockEnd
        invariant ScanOptions(file, swapped, start, blockEnd, 1_000_000) ==
                  ScanOptions(file, swapped, optPtr, blockEnd, divisor)
        decreases |file| - optPtr
      {
        hide Field16;
        var code, vlen := Field16(file, optPtr, swapped), Field16(file, optPtr + 2, swapped);
        if code == 0 {
          break;
        }
        if code == 9 && vlen == 1 {
          divisor := ReadResolution(file[optPtr + 4]);
        }
        optPtr := optPtr + 4 + (vlen as int + 3) / 4 * 4;
      }
    }

    /** The interface described by the block of length `len` at the cursor. */
    method ReadInterface(len: nat) returns (info: Interface)
      requires BLOCK_HEADER <= len && currentPtr + len <= |file| && ScanInterface(Cap(), currentPtr, len).Some?
      ensures ScanInterface(Cap(), currentPtr, len) == Some(info)
    {
      hide ScanOptions, Field16;
      var link := Field16(file, currentPtr + 8, swapped);
      var divisor := ReadOptions(currentPtr + 16, currentPtr + len - 4);
      info := Interface(link, divisor);
    }

    /** The block loop: moves to the next packet block, or reports the end. */
    method FindPacket() returns (found: bool, len: nat)
      requires isPcapNg && !Captures.Next(Cap(), Pos()).Fault?
      modifies this`currentPtr, this`interfaces, this`interfaceCount, this`finished
      ensures Captures.Next(Cap(), Pos()) == Captures.Next(Cap(), old(Pos()))
      ensures found ==> finished == old(finished) && BLOCK_HEADER <= len && currentPtr + len <= |file| &&
                        Captures.Next(Cap(), Pos()) == ScanPacketBlock(Cap(), Pos(), len)
      ensures !found ==> finished && Captures.Next(Cap(), Pos()) == AtEnd(Pos())
    {
      hide Field32, ScanInterface, ScanPacketBlock;
      while true
        invariant Captures.Next(Cap(), Pos()) == Captures.Next(Cap(), old(Pos())) && finished == old(finished)
        decreases |file| - currentPtr
      {
        if currentPtr + BLOCK_HEADER > |file| {
          finished := true;
          return false, 0;
        }
        var kind := Field32(file, currentPtr, swapped);
        len := Field32(file, currentPtr + 4, swapped);
        if len < BLOCK_HEADER || currentPtr + len > |file| {
          finished := true;
          return false, 0;
        }
        if kind == PCAPNG_EPB {
          return true, len;
        }
        if kind == PCAPNG_IDB {
          var info := ReadInterface(len);
          interfaces := interfaces[interfaceCount := info];
          interfaceCount := interfaceCount + 1;
        }
        currentPtr := currentPtr + len;
      }
    }

    /** The block loop as a step of the model: only the position changes, and what comes next does not. */
    method Seek() returns (found: bool, len: nat)
      requires Valid() && mapped && isPcapNg
      modifies this`currentPtr, this`interfaces, this`interfaceCount, this`finished
      ensures Valid()
      ensures World() == old(World()).(rx := old(Rx()).(pos := Pos(), finished := finished))
      ensures !old(Captures.Next(Cap(), Pos())).Fault?
      ensures Pos() == old(Captures.Next(Cap(), Pos())).pos
      ensures found ==> finished == old(finished) && BLOCK_HEADER <= len && currentPtr + len <= |file| &&
                        Captures.Next(Cap(), Pos()) == ScanPacketBlock(Cap(), Pos(), len) &&
                        !ScanPacketBlock(Cap(), Pos(), len).Fault?
      ensures !found ==> finished && old(Captures.Next(Cap(), Pos())).AtEnd?
    {
      hide Safe, Captures.Next, ScanPacketBlock, EL.EventLoop.Valid, EL.EventLoop.View;
      SafeMeansNoFault(Cap(), Pos());
      found, len := FindPacket();
      SameNextSameDecode(Cap(), Pos(), old(Pos()));
      if found {
        PacketBlockShape(Cap(), Pos(), len);
      }
    }

    method StepPcapNg() returns (more: bool)
      requires Valid() && mapped && isPcapNg
      modifies this`pcapStart, this`wallStart, this`firstPacket, this`hotPort, this`hotHandler, this`hotContext,
               this`currentPtr, this`interfaces, this`interfaceCount, this`finished, this`out, this`played, loop
      ensures Valid()
      ensures R.StepResult(World(), more) == R.InternalStep(loop.elapsed, Cfg(), old(World()))
    {
      hide Safe, Captures.Next, R.InternalStep, ScanPacketBlock, EL.EventLoop.Valid, EL.EventLoop.View;
      ghost var cfg, before := Cfg(), World();
      var found, len := Seek();
      if !found {
        StepAtEnd(loop.elapsed, cfg, before);
        return false;
      }
      SameScan(loop.elapsed, cfg, before);
      more := PlayPacketBlock(len);
    }

    /** The packet block of length `len` at the cursor. */
    method PlayPacketBlock(len: nat) returns (more: bool)
      requires Valid() && mapped && isPcapNg && BLOCK_HEADER <= len && currentPtr + len <= |file|
      requires Captures.Next(Cap(), Pos()) == ScanPacketBlock(Cap(), Pos(), len)
      requires !ScanPacketBlock(Cap(), Pos(), len).Fault?
      modifies this`pcapStart, this`wallStart, this`firstPacket, this`hotPort, this`hotHandler, this`hotContext,
               this`currentPtr, this`out, this`played, loop
      ensures Valid()
      ensures R.StepResult(World(), more) == R.InternalStep(loop.elapsed, Cfg(), old(World()))
    {
      hide Safe, Captures.Next, R.InternalStep, Field32, EL.EventLoop.Valid, EL.EventLoop.View;
      var ifId := Field32(file, currentPtr + 8, swapped);
      var info := interfaces[ifId];
      var high, low := Field32(file, currentPtr + 12, swapped), Field32(file, currentPtr + 16, swapped);
      var raw := high as int * 0x1_0000_0000 + low;
      var ts := ToTimespec(raw, info.divisor);
      var capLen, origLen := Field32(file, currentPtr + 20, swapped), Field32(file, currentPtr + 24, swapped);
      more := PlayOrWait(ts, capLen, origLen, currentPtr + 28, info.linkType, currentPtr + len);
    }

    /** One packet, or a wait, or the end. */
    method InternalStep() returns (more: bool)
      requires Valid() && mapped
      modifies this`pcapStart, this`wallStart, this`firstPacket, this`hotPort, this`hotHandler, this`hotContext,
               this`currentPtr, this`interfaces, this`interfaceCount, this`finished, this`out, this`played, loop
      ensures Valid()
      ensures R.StepResult(World(), more) == R.InternalStep(loop.elapsed, Cfg(), old(World()))
    {
      hide Safe, R.InternalStep, Field32, ScanBlocks, EL.EventLoop.Valid, EL.EventLoop.View;
      if isPcapNg {
        more := StepPcapNg();
        return;
      }
      SafeMeansNoFault(Cap(), Pos());
      if currentPtr + RECORD_HEADER > |file| {
        StepAtEnd(loop.elapsed, Cfg(), World());
        finished := true;
        return false;
      }
      var sec := Field32(file, currentPtr, swapped);
      var fraction := Field32(file, currentPtr + 4, swapped);
      var caplen := Field32(file, currentPtr + 8, swapped);
      var len := Field32(file, currentPtr + 12, swapped);
      var nsec: int := fraction;
      if !isNanosecond {
        nsec := nsec * 1000;
      }
      var data := currentPtr + RECORD_HEADER;
      more := PlayOrWait(Timespec(sec, nsec), caplen, len, data, linkType, data + caplen);
    }

    /** `step`, the manual trigger. */
    method Step() returns (more: bool)
      requires Valid() && mapped
      modifies this`pcapStart, this`wallStart, this`firstPacket, this`hotPort, this`hotHandler, this`hotContext,
               this`currentPtr, this`interfaces, this`interfaceCount, this`finished, this`out, this`played, loop
      ensures Valid()
      ensures R.StepResult(World(), more) == R.InternalStep(loop.elapsed, Cfg(), old(World()))
    {
      hide EL.EventLoop.Valid, EL.EventLoop.View;
      more := InternalStep();
    }

    /** The inner loop of both batch functions: up to `limit` steps, stopping at the first that fails. */
    method StepUpTo(limit: int) returns (more: bool)
      requires Valid() && mapped
      modifies this`pcapStart, this`wallStart, this`firstPacket, this`hotPort, this`hotHandler, this`hotContext,
               this`currentPtr, this`interfaces, this`interfaceCount, this`finished, this`out, this`played, loop
      ensures Valid()
      ensures R.StepResult(World(), more) ==
              R.StepUpTo(loop.elapsed, Cfg(), old(World()), if limit < 0 then 0 else limit)
    {
      hide Safe, R.InternalStep, R.StepUpTo, EL.EventLoop.Valid, EL.EventLoop.View, World;
      ghost var n: nat := if limit < 0 then 0 else limit;
      ghost var before := World();
      var totalProcessed := 0;
      while totalProcessed < limit
        invariant 0 <= totalProcessed <= n && Valid()
        invariant R.StepUpTo(loop.elapsed, Cfg(), before, n) ==
                  R.StepUpTo(loop.elapsed, Cfg(), World(), n - totalProcessed)
      {
        StepUpToTurn(loop.elapsed, Cfg(), World(), n - totalProcessed);
        var stepped := InternalStep();
        if !stepped {
          return false;
        }
        totalProcessed := totalProcessed + 1;
      }
      StepUpToTurn(loop.elapsed, Cfg(), World(), 0);
      return true;
    }

    method ProcessBatchFlood()
      requires Valid() && mapped
      modifies this`pcapStart, this`wallStart, this`firstPacket, this`hotPort, this`hotHandler, this`hotContext,
               this`currentPtr, this`interfaces, this`interfaceCount, this`finished, this`out, this`played, loop
      ensures Valid()
      ensures World() == R.ProcessBatchFlood(loop.elapsed, Cfg(), old(World()))
    {
      hide Safe, R.StepUpTo, L.Perform, EL.EventLoop.Valid, EL.EventLoop.View;
      var more := StepUpTo(20000);
      if !more {
        return;
      }
      if finished {
        return;
      }
      loop.RunInLoop(ReplayFlood);
    }

    /** What follows a batch that did not reach the end. */
    method Continue()
      requires Valid()
      modifies loop
      ensures Valid() && World() == R.Continue(loop.elapsed, Cfg(), old(World()))
    {
      hide Safe, L.Perform, EL.EventLoop.Valid;
      if mode == R.Flood {
        loop.RunInLoop(ReplayBatch);
      } else if mode == R.Timed {
        var _ := loop.RunAfter(0, ReplayBatch);
      }
    }

    method ProcessBatch()
      requires Valid()
      modifies this`pcapStart, this`wallStart, this`firstPacket, this`hotPort, this`hotHandler, this`hotContext,
               this`currentPtr, this`interfaces, this`interfaceCount, this`finished, this`out, this`played, loop
      ensures Valid()
      ensures World() == if mapped then R.ProcessBatch(loop.elapsed, Cfg(), old(World())) else old(World())
    {
      hide Safe, R.StepUpTo, R.Continue, R.ProcessBatchFlood, EL.EventLoop.Valid, EL.EventLoop.View, Hot;
      if !mapped || finished {
        return;
      }
      if mode == R.Flood {
        ProcessBatchFlood();
      }
      var stopLimit := if mode == R.Flood then 10000 else batchSize;
      var more := StepUpTo(stopLimit);
      if !more {
        return;
      }
      if finished {
        return;
      }
      Continue();
    }
  }

  /** The first packet is due at once. */
  lemma FirstTarget(rx: R.Receiver, ts: Timespec)
    requires rx.pcapStart == ts
    ensures R.TargetTime(rx, ts) == rx.wallStart
  {
  }

  /** A step depends on the position only through what the reader meets next. */
  lemma SameScan(e: nat -> nat, cfg: R.Config, w: R.World)
    requires !Next(cfg.capture, w.rx.pos).Fault?
    ensures var pos := Next(cfg.capture, w.rx.pos).pos;
            R.InternalStep(e, cfg, w.(rx := w.rx.(pos := pos))) == R.InternalStep(e, cfg, w)
  {
    hide Next, R.Play, R.Wait, R.Aim, R.TargetTime, L.Tick;
    LookAgain(cfg.capture, w.rx.pos);
  }

  lemma StepUpToTurn(e: nat -> nat, cfg: R.Config, w: R.World, n: nat)
    ensures R.StepUpTo(e, cfg, w, n) ==
            if n == 0 then R.StepResult(w, true)
            else
              var r := R.InternalStep(e, cfg, w);
              if r.more then R.StepUpTo(e, cfg, r.world, n - 1) else r
  {
    hide R.InternalStep;
  }

  lemma StepAtEnd(e: nat -> nat, cfg: R.Config, w: R.World)
    requires Next(cfg.capture, w.rx.pos).AtEnd?
    ensures R.InternalStep(e, cfg, w) ==
            R.StepResult(w.(rx := w.rx.(pos := Next(cfg.capture, w.rx.pos).pos, finished := true)), false)
  {
    hide Next;
  }

  /** `internalStep` with the cursor at a packet. */
  lemma StepAtPacket(e: nat -> nat, cfg: R.Config, w: R.World)
    requires Next(cfg.capture, w.rx.pos).AtPacket? && Next(cfg.capture, w.rx.pos).pos == w.rx.pos
    ensures var s := Next(cfg.capture, w.rx.pos);
            R.InternalStep(e, cfg, w) ==
            if cfg.mode != R.Timed then R.StepResult(R.Play(cfg, w, s.frame, s.next), true)
            else
              var aimed := R.Aim(e, w, s.frame.ts);
              var target, now := R.TargetTime(aimed.rx, s.frame.ts), aimed.(loop := L.Tick(e, aimed.loop));
              if target > now.loop.clock then R.StepResult(R.Wait(e, now, target), false)
              else R.StepResult(R.Play(cfg, now, s.frame, s.next), true)
  {
    hide Next, R.Play, R.Wait, R.Aim, R.TargetTime, L.Tick;
    assert w.(rx := w.rx.(pos := w.rx.pos)) == w;
  }

  /** The divisor that an `if_tsresol` octet announces. */
  method ReadResolution(res: Byte) returns (divisor: U64)
    requires Divisor(res).Some?
    ensures Divisor(res) == Some(divisor)
  {
    if res >= 0x80 {
      Pow2Bound(res - 0x80);
      return Pow(2, res - 0x80);
    }
    divisor := 1;
    for i := 0 to res
      invariant divisor == WrappedPow10(i)
    {
      divisor := divisor * 10 % TWO64;
    }
  }

  /** The UDP port and length fields of a segment that lies in a file. */
  lemma SameUdpFields(file: seq<Byte>, from: nat, to: nat)
    requires from + 8 <= to <= |file|
    ensures Load16(file, from + 2) == Load16(file[from..to], 2)
    ensures Swap16(Load16(file, from + 4)) == Net16(file[from..to], 4)
  {
    hide Swap16;
    SwapIsNet16(file[from..to], 4);
  }

  /** Past the fast path's test, the layers of the reference end where the fixed offsets say. */
  lemma FastSegment(data: seq<Byte>)
    requires 42 <= |data| && data[12] == 0x08 && data[13] == 0x00 && data[14] / 0x10 == 4 && data[23] == IPPROTO_UDP
    ensures var udp := 14 + data[14] % 0x10 * 4;
            Segment(DLT_EN10MB, data) == if |data| < udp + 8 then None else Some(data[udp..])
  {
    var body, headerLen := data[14..], data[14] % 0x10 * 4;
    assert body[0] == data[14] && body[9] == data[23];
    assert LinkPayload(DLT_EN10MB, data) == Some(Packet(ETHERTYPE_IP, body));
    assert headerLen <= |body| ==> body[headerLen..] == data[14 + headerLen..];
  }

  /** A network-order number read in a file is the one read in the piece of it. */
  lemma SameNet16(file: seq<Byte>, from: nat, to: nat, i: nat)
    requires from <= to <= |file| && from + i + 2 <= to
    ensures Net16(file, from + i) == Net16(file[from..to], i)
  {
  }
}
