/** A capture file as a byte sequence with a cursor: opening it, finding the next packet, and the
    sequence of packets that reading it to the end yields. */
module Captures {
  import opened Results
  import opened Bytes
  import opened Frames
  import opened Timestamps

  const MAGIC_MICRO_BE: U32 := 0xa1b2c3d4
  const MAGIC_MICRO_LE: U32 := 0xd4c3b2a1
  const MAGIC_NANO_BE: U32 := 0xa1b23c4d
  const MAGIC_NANO_LE: U32 := 0x4d3c2b1a
  const MAGIC_PCAPNG_SHB: U32 := 0x0A0D0D0A
  const PCAPNG_BOM: U32 := 0x1A2B3C4D
  const PCAPNG_BOM_SWAP: U32 := 0x4D3C2B1A
  const PCAPNG_IDB: U32 := 1
  const PCAPNG_EPB: U32 := 6

  const FILE_HEADER: nat := 24
  const RECORD_HEADER: nat := 16
  const BLOCK_HEADER: nat := 8

  /** What `open` finds out about a file. */
  datatype Capture = Capture(file: seq<Byte>, isPcapNg: bool, swapped: bool, isNanosecond: bool, linkType: U32)

  datatype Interface = Interface(linkType: U16, divisor: U64)

  /** The cursor, and the interfaces registered on the way to it. */
  datatype Position = Position(cursor: nat, interfaces: map<nat, Interface>, count: nat)

  /** What the reader meets next.  `Fault` stands for behaviour that the source leaves undefined: a read
      beyond the file, a division by zero, a shift by 64 or more. */
  datatype Scan =
    | AtEnd(pos: Position)
    | AtPacket(pos: Position, frame: Frame, next: Position)
    | Fault

  /** `open`, after the file has been mapped.  An unknown magic number is taken for native microseconds. */
  function Open(file: seq<Byte>): Result<Capture> {
    if |file| < FILE_HEADER then Err(EINVAL)
    else
      var magic := Load32(file, 0);
      if magic == MAGIC_PCAPNG_SHB then
        var bom := Load32(file, 8);
        if bom == PCAPNG_BOM then Ok(Capture(file, true, false, true, 0))
        else if bom == PCAPNG_BOM_SWAP then Ok(Capture(file, true, true, true, 0))
        else Err(EINVAL)
      else
        var swapped := magic == MAGIC_MICRO_LE || magic == MAGIC_NANO_LE;
        var nano := magic == MAGIC_NANO_LE || magic == MAGIC_NANO_BE;
        Ok(Capture(file, false, swapped, nano, Field32(file, 20, swapped)))
  }

  /** Where `open` and `rewind` put the cursor. */
  function FirstOffset(c: Capture): nat {
    if c.isPcapNg then 0 else FILE_HEADER
  }

  function Start(c: Capture): Position {
    Position(FirstOffset(c), map[], 0)
  }

  // ---------- Legacy records ----------

  function RecordTime(c: Capture, at: nat): Timespec
    requires at + RECORD_HEADER <= |c.file|
  {
    var fraction := Field32(c.file, at + 4, c.swapped);
    Timespec(Field32(c.file, at, c.swapped), if c.isNanosecond then fraction else fraction * 1000)
  }

  function ScanRecord(c: Capture, p: Position): Scan {
    if p.cursor + RECORD_HEADER > |c.file| then AtEnd(p)
    else
      var caplen := Field32(c.file, p.cursor + 8, c.swapped);
      var len := Field32(c.file, p.cursor + 12, c.swapped);
      var data := p.cursor + RECORD_HEADER;
      if data + caplen > |c.file| then Fault
      else
        AtPacket(p, Frame(RecordTime(c, p.cursor), len, c.file[data..data + caplen], c.linkType),
                 p.(cursor := data + caplen))
  }

  // ---------- pcapng blocks ----------

  /** `vlen` rounded up to a multiple of four. */
  function Padded(vlen: nat): (n: nat)
    ensures vlen <= n < vlen + 4 && n % 4 == 0
  {
    (vlen + 3) / 4 * 4
  }

  /** The option loop over `file[at..end]`: the resolution announced last, starting from `divisor`. */
  function ScanOptions(file: seq<Byte>, swapped: bool, at: nat, end: nat, divisor: U64): Option<U64>
    requires end + 4 <= |file|
    decreases |file| - at
  {
    if at + 4 > end then Some(divisor)
    else
      var code, vlen := Field16(file, at, swapped), Field16(file, at + 2, swapped);
      if code == 0 then Some(divisor)
      else
        var next := at + 4 + Padded(vlen);
        if code == 9 && vlen == 1 then
          match Divisor(file[at + 4])
          case None => None
          case Some(d) => ScanOptions(file, swapped, next, end, d)
        else ScanOptions(file, swapped, next, end, divisor)
  }

  /** The interface that the description block of length `len` at `at` registers. */
  function ScanInterface(c: Capture, at: nat, len: nat): Option<Interface>
    requires BLOCK_HEADER <= len && at + len <= |c.file|
  {
    if at + 10 > |c.file| then None
    else
      match ScanOptions(c.file, c.swapped, at + 16, at + len - 4, 1_000_000)
      case None => None
      case Some(divisor) => Some(Interface(Field16(c.file, at + 8, c.swapped), divisor))
  }

  function RawTime(c: Capture, at: nat): U64
    requires at + 20 <= |c.file|
  {
    Field32(c.file, at + 12, c.swapped) * 0x1_0000_0000 + Field32(c.file, at + 16, c.swapped)
  }

  /** The enhanced packet block of length `len` at the cursor. */
  function ScanPacketBlock(c: Capture, p: Position, len: nat): Scan
    requires BLOCK_HEADER <= len && p.cursor + len <= |c.file|
  {
    if p.cursor + 28 > |c.file| then Fault
    else
      var ifId := Field32(c.file, p.cursor + 8, c.swapped);
      if ifId !in p.interfaces || p.interfaces[ifId].divisor == 0 then Fault
      else
        var info := p.interfaces[ifId];
        var caplen := Field32(c.file, p.cursor + 20, c.swapped);
        var data := p.cursor + 28;
        if data + caplen > |c.file| then Fault
        else
          AtPacket(p, Frame(ToTimespec(RawTime(c, p.cursor), info.divisor), Field32(c.file, p.cursor + 24, c.swapped),
                            c.file[data..data + caplen], info.linkType),
                   p.(cursor := p.cursor + len))
  }

  function Register(p: Position, info: Interface): Position {
    p.(interfaces := p.interfaces[p.count := info], count := p.count + 1)
  }

  /** The block loop: skips to the next packet block, registering interfaces on the way. */
  function ScanBlocks(c: Capture, p: Position): Scan
    decreases |c.file| - p.cursor
  {
    if p.cursor + BLOCK_HEADER > |c.file| then AtEnd(p)
    else
      var kind, len := Field32(c.file, p.cursor, c.swapped), Field32(c.file, p.cursor + 4, c.swapped);
      if len < BLOCK_HEADER || p.cursor + len > |c.file| then AtEnd(p)
      else if kind == PCAPNG_EPB then ScanPacketBlock(c, p, len)
      else if kind == PCAPNG_IDB then
        match ScanInterface(c, p.cursor, len)
        case None => Fault
        case Some(info) => ScanBlocks(c, Register(p, info).(cursor := p.cursor + len))
      else ScanBlocks(c, p.(cursor := p.cursor + len))
  }

  // ---------- The whole file ----------

  function Next(c: Capture, p: Position): Scan {
    if c.isPcapNg then ScanBlocks(c, p) else ScanRecord(c, p)
  }

  lemma PacketBlockShape(c: Capture, p: Position, len: nat)
    requires BLOCK_HEADER <= len && p.cursor + len <= |c.file|
    ensures var s := ScanPacketBlock(c, p, len);
            s.Fault? || (s.AtPacket? && s.pos == p && s.next == p.(cursor := p.cursor + len))
  {
    hide Field32, ToTimespec;
  }

  /** One turn of the block loop that does not end it. */
  lemma BlockLoopTurn(c: Capture, p: Position) returns (next: Option<Position>)
    ensures match next
            case Some(q) => p.cursor < q.cursor <= |c.file| && ScanBlocks(c, p) == ScanBlocks(c, q)
            case None =>
              || ScanBlocks(c, p) == AtEnd(p) || ScanBlocks(c, p).Fault?
              || (ScanBlocks(c, p).AtPacket? && ScanBlocks(c, p).pos == p &&
                  var next := ScanBlocks(c, p).next;
                  next == p.(cursor := next.cursor) && p.cursor + BLOCK_HEADER <= next.cursor <= |c.file|)
  {
    hide Field32, ScanPacketBlock, ScanInterface;
    if p.cursor + BLOCK_HEADER > |c.file| { return None; }
    var kind, len := Field32(c.file, p.cursor, c.swapped), Field32(c.file, p.cursor + 4, c.swapped);
    if len < BLOCK_HEADER || p.cursor + len > |c.file| { return None; }
    if kind == PCAPNG_EPB {
      PacketBlockShape(c, p, len);
      return None;
    }
    if kind == PCAPNG_IDB {
      var info := ScanInterface(c, p.cursor, len);
      if info.None? { return None; }
      return Some(Register(p, info.value).(cursor := p.cursor + len));
    }
    return Some(p.(cursor := p.cursor + len));
  }

  /** Every packet found moves the cursor forward, by at least a block header in a pcapng file and by at
      least a record header in a legacy one, and never beyond the file. */
  lemma {:induction false} PacketAdvances(c: Capture, p: Position)
    ensures var s := Next(c, p);
            s.AtPacket? ==>
              && p.cursor <= s.pos.cursor && s.next == s.pos.(cursor := s.next.cursor)
              && s.pos.cursor + (if c.isPcapNg then BLOCK_HEADER else RECORD_HEADER) <= s.next.cursor <= |c.file|
    decreases |c.file| - p.cursor
  {
    hide Field32, ScanBlocks;
    if c.isPcapNg {
      var next := BlockLoopTurn(c, p);
      if next.Some? { PacketAdvances(c, next.value); }
    }
  }

  /** Looking again from the packet that was found, or from the end, finds the same: a wait in front of a
      packet registers no interface twice. */
  lemma {:induction false} LookAgain(c: Capture, p: Position)
    ensures !Next(c, p).Fault? ==> Next(c, Next(c, p).pos) == Next(c, p)
    decreases |c.file| - p.cursor
  {
    hide Field32, ScanBlocks;
    if c.isPcapNg {
      var next := BlockLoopTurn(c, p);
      if next.Some? { LookAgain(c, next.value); }
    }
  }

  /** All packets from a position to the end, in order. */
  function Decode(c: Capture, p: Position): seq<Frame>
    decreases |c.file| - p.cursor
  {
    PacketAdvances(c, p);
    match Next(c, p)
    case AtPacket(_, frame, next) => [frame] + Decode(c, next)
    case _ => []
  }

  /** Where reading `n` packets from `p` leads; beyond the last packet, where the end was noticed. */
  function After(c: Capture, p: Position, n: nat): Position
    decreases n
  {
    if n == 0 then p
    else
      match Next(c, p)
      case AtPacket(_, _, next) => After(c, next, n - 1)
      case AtEnd(pos) => pos
      case Fault => p
  }

  /** Where reading to the end leads. */
  function End(c: Capture, p: Position): Position
    decreases |c.file| - p.cursor
  {
    PacketAdvances(c, p);
    match Next(c, p)
    case AtPacket(_, _, next) => End(c, next)
    case AtEnd(pos) => pos
    case Fault => p
  }

  /** `rewind`: only the cursor goes back, the registered interfaces stay. */
  function Rewound(c: Capture, p: Position): Position {
    p.(cursor := FirstOffset(c))
  }

  /** Reading from here to the end meets nothing undefined. */
  ghost predicate Safe(c: Capture, p: Position)
    decreases |c.file| - p.cursor
  {
    PacketAdvances(c, p);
    match Next(c, p)
    case AtEnd(_) => true
    case AtPacket(_, _, next) => Safe(c, next)
    case Fault => false
  }

  lemma SameNextSameDecode(c: Capture, p: Position, q: Position)
    requires Next(c, p) == Next(c, q)
    ensures Decode(c, p) == Decode(c, q) && (Safe(c, p) <==> Safe(c, q))
    ensures !Next(c, p).Fault? ==> End(c, p) == End(c, q)
    ensures forall n: nat :: 0 < n && !Next(c, p).Fault? ==> After(c, p, n) == After(c, q, n)
  {
    hide Next;
  }

  lemma DecodePacket(c: Capture, p: Position)
    requires Next(c, p).AtPacket?
    ensures Decode(c, p) == [Next(c, p).frame] + Decode(c, Next(c, p).next)
    ensures Safe(c, p) <==> Safe(c, Next(c, p).next)
    ensures End(c, p) == End(c, Next(c, p).next)
    ensures forall n: nat :: 0 < n ==> After(c, p, n) == After(c, Next(c, p).next, n - 1)
  {
    hide Next;
    PacketAdvances(c, p);
  }

  lemma DecodeAtEnd(c: Capture, p: Position)
    requires p.cursor == |c.file|
    ensures Safe(c, p) && Decode(c, p) == [] && End(c, p) == p
    ensures forall n: nat :: After(c, p, n) == p
  {
  }

  lemma SafeMeansNoFault(c: Capture, p: Position)
    requires Safe(c, p)
    ensures !Next(c, p).Fault?
  {
  }

  /** In a legacy file only the cursor matters, so a replay after `rewind` is the first replay again,
      wherever it was rewound from. */
  lemma {:induction false} LegacyIgnoresInterfaces(c: Capture, p: Position, q: Position)
    requires !c.isPcapNg && p.cursor == q.cursor
    ensures Decode(c, p) == Decode(c, q) && (Safe(c, p) <==> Safe(c, q))
    decreases |c.file| - p.cursor
  {
    hide Next, Decode, Safe;
    LegacyNextAlike(c, p, q);
    if Next(c, p).AtPacket? {
      DecodePacket(c, p);
      DecodePacket(c, q);
      PacketAdvances(c, p);
      LegacyIgnoresInterfaces(c, Next(c, p).next, Next(c, q).next);
    } else {
      DecodeNothing(c, p);
      DecodeNothing(c, q);
    }
  }

  lemma LegacyNextAlike(c: Capture, p: Position, q: Position)
    requires !c.isPcapNg && p.cursor == q.cursor
    ensures match Next(c, p)
            case AtEnd(_) => Next(c, q).AtEnd?
            case AtPacket(_, frame, next) =>
              Next(c, q).AtPacket? && Next(c, q).frame == frame && Next(c, q).next.cursor == next.cursor
            case Fault => Next(c, q).Fault?
  {
    hide Field32, RecordTime;
  }

  lemma DecodeNothing(c: Capture, p: Position)
    requires !Next(c, p).AtPacket?
    ensures Decode(c, p) == [] && (Safe(c, p) <==> Next(c, p).AtEnd?)
  {
    hide Next;
  }
}
