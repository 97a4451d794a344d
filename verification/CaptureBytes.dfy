/** The reader on every file, malformed ones included, described by the bytes alone. */
module CaptureBytes {
  import opened Results
  import opened Bytes
  import opened Frames
  import opened Timestamps
  import opened Captures

  /** The four bytes at `i` as a number, the first of them the highest or the lowest. */
  function Number(file: seq<Byte>, i: nat, highFirst: bool): (v: nat)
    requires i + 4 <= |file|
    ensures v < 0x1_0000_0000
  {
    var a, b, c, d := file[i] as int, file[i + 1] as int, file[i + 2] as int, file[i + 3] as int;
    if highFirst then ((a * 256 + b) * 256 + c) * 256 + d else ((d * 256 + c) * 256 + b) * 256 + a
  }

  lemma FieldIsNumber(file: seq<Byte>, i: nat, swapped: bool)
    requires i + 4 <= |file|
    ensures Field32(file, i, swapped) == Number(file, i, swapped)
  {
    BytesOfJoin32(file[i], file[i + 1], file[i + 2], file[i + 3]);
  }

  lemma LoadIs(file: seq<Byte>, i: nat, b0: Byte, b1: Byte, b2: Byte, b3: Byte)
    requires i + 4 <= |file|
    ensures Load32(file, i) == Join32(b0, b1, b2, b3) <==> file[i..i + 4] == [b0, b1, b2, b3]
  {
    BytesOfJoin32(file[i], file[i + 1], file[i + 2], file[i + 3]);
    BytesOfJoin32(b0, b1, b2, b3);
    assert file[i..i + 4] == [file[i], file[i + 1], file[i + 2], file[i + 3]];
  }

  /** The first bytes of a file tell its format: these are the magic numbers as they lie in the file. */
  lemma MagicBytes(file: seq<Byte>)
    requires 12 <= |file|
    ensures Load32(file, 0) == MAGIC_PCAPNG_SHB <==> file[0..4] == [0x0A, 0x0D, 0x0D, 0x0A]
    ensures Load32(file, 0) == MAGIC_MICRO_LE <==> file[0..4] == [0xA1, 0xB2, 0xC3, 0xD4]
    ensures Load32(file, 0) == MAGIC_NANO_LE <==> file[0..4] == [0x1A, 0x2B, 0x3C, 0x4D]
    ensures Load32(file, 0) == MAGIC_NANO_BE <==> file[0..4] == [0x4D, 0x3C, 0xB2, 0xA1]
    ensures Load32(file, 8) == PCAPNG_BOM <==> file[8..12] == [0x4D, 0x3C, 0x2B, 0x1A]
    ensures Load32(file, 8) == PCAPNG_BOM_SWAP <==> file[8..12] == [0x1A, 0x2B, 0x3C, 0x4D]
  {
    hide Load32;
    LoadIs(file, 0, 0x0A, 0x0D, 0x0D, 0x0A);
    LoadIs(file, 0, 0xA1, 0xB2, 0xC3, 0xD4);
    LoadIs(file, 0, 0x1A, 0x2B, 0x3C, 0x4D);
    LoadIs(file, 0, 0x4D, 0x3C, 0xB2, 0xA1);
    LoadIs(file, 8, 0x4D, 0x3C, 0x2B, 0x1A);
    LoadIs(file, 8, 0x1A, 0x2B, 0x3C, 0x4D);
  }

  /** `open` on every file.  It fails just if the file is shorter than a legacy header, or begins as a pcapng file but
      has neither byte-order mark; a file of unknown magic number is taken for native microseconds. */
  lemma OpenExactly(file: seq<Byte>)
    ensures |file| < 24 ==> Open(file) == Err(EINVAL)
    ensures 24 <= |file| && file[0..4] == [0x0A, 0x0D, 0x0D, 0x0A] ==>
              Open(file) ==
              if file[8..12] == [0x4D, 0x3C, 0x2B, 0x1A] then Ok(Capture(file, true, false, true, 0))
              else if file[8..12] == [0x1A, 0x2B, 0x3C, 0x4D] then Ok(Capture(file, true, true, true, 0))
              else Err(EINVAL)
    ensures 24 <= |file| && file[0..4] != [0x0A, 0x0D, 0x0D, 0x0A] ==>
              var swapped := file[0..4] == [0xA1, 0xB2, 0xC3, 0xD4] || file[0..4] == [0x1A, 0x2B, 0x3C, 0x4D];
              var nano := file[0..4] == [0x1A, 0x2B, 0x3C, 0x4D] || file[0..4] == [0x4D, 0x3C, 0xB2, 0xA1];
              Open(file) == Ok(Capture(file, false, swapped, nano, Number(file, 20, swapped)))
  {
    hide Load32, Field32;
    if 24 <= |file| {
      MagicBytes(file);
      FieldIsNumber(file, 20, true);
      FieldIsNumber(file, 20, false);
    }
  }

  /** The reader of legacy files at every position: it ends if less than a record header is left, and else meets the
      packet whose time, lengths and bytes lie there, if the captured bytes are all in the file. */
  lemma RecordExactly(c: Capture, p: Position)
    requires !c.isPcapNg
    ensures |c.file| < p.cursor + 16 ==> Next(c, p) == AtEnd(p)
    ensures p.cursor + 16 <= |c.file| ==>
              var sec, fraction := Number(c.file, p.cursor, c.swapped), Number(c.file, p.cursor + 4, c.swapped);
              var caplen, len := Number(c.file, p.cursor + 8, c.swapped), Number(c.file, p.cursor + 12, c.swapped);
              var from, to := p.cursor + 16, p.cursor + 16 + caplen;
              Next(c, p) ==
              if |c.file| < to then Fault
              else
                AtPacket(p, Frame(Timespec(sec, if c.isNanosecond then fraction else fraction * 1000), len,
                                  c.file[from..to], c.linkType), Position(to, p.interfaces, p.count))
  {
    hide Field32;
    if p.cursor + 16 <= |c.file| {
      FieldIsNumber(c.file, p.cursor, c.swapped);
      FieldIsNumber(c.file, p.cursor + 4, c.swapped);
      FieldIsNumber(c.file, p.cursor + 8, c.swapped);
      FieldIsNumber(c.file, p.cursor + 12, c.swapped);
    }
  }

  /** The block at a position is whole: its header and, as far as its length says, the rest of it are in the file. */
  predicate WholeBlock(c: Capture, at: nat) {
    && at + 8 <= |c.file|
    && var len := Number(c.file, at + 4, c.swapped); 8 <= len && at + len <= |c.file|
  }

  /** The block loop at every position: it ends where no whole block is; a block that is neither an interface nor a
      packet is skipped; an interface is registered under the next number, with its link type and the resolution that
      its options announce, and skipped; a packet is met. */
  lemma BlockExactly(c: Capture, p: Position)
    requires c.isPcapNg
    ensures !WholeBlock(c, p.cursor) ==> Next(c, p) == AtEnd(p)
    ensures WholeBlock(c, p.cursor) ==>
              var kind, len := Number(c.file, p.cursor, c.swapped), Number(c.file, p.cursor + 4, c.swapped);
              match kind
              case 6 => Next(c, p) == ScanPacketBlock(c, p, len)
              case 1 =>
                (match ScanInterface(c, p.cursor, len)
                 case None => Next(c, p) == Fault
                 case Some(info) =>
                   Next(c, p) == Next(c, Position(p.cursor + len, p.interfaces[p.count := info], p.count + 1)))
              case _ => Next(c, p) == Next(c, Position(p.cursor + len, p.interfaces, p.count))
  {
    hide Field32, Number, ScanPacketBlock, ScanInterface;
    if p.cursor + 8 <= |c.file| {
      FieldIsNumber(c.file, p.cursor, c.swapped);
      FieldIsNumber(c.file, p.cursor + 4, c.swapped);
    }
  }

  /** Two bytes as a number. */
  function Short(file: seq<Byte>, i: nat, highFirst: bool): (v: nat)
    requires i + 2 <= |file|
    ensures v < 0x1_0000
  {
    var a, b := file[i] as int, file[i + 1] as int;
    if highFirst then a * 256 + b else b * 256 + a
  }

  lemma FieldIsShort(file: seq<Byte>, i: nat, swapped: bool)
    requires i + 2 <= |file|
    ensures Field16(file, i, swapped) == Short(file, i, swapped)
  {
    BytesOfJoin16(file[i], file[i + 1]);
  }

  /** The option loop at every position: it ends in front of less than an option header, and at an option of code 0; an
      option of code 9 and length 1 announces a resolution, which is undefined from 0xC0 on; and the next option
      begins behind the value, rounded up to four bytes. */
  lemma OptionExactly(file: seq<Byte>, swapped: bool, at: nat, end: nat, divisor: U64)
    requires end + 4 <= |file|
    ensures end < at + 4 ==> ScanOptions(file, swapped, at, end, divisor) == Some(divisor)
    ensures at + 4 <= end ==>
              var code, len := Short(file, at, swapped), Short(file, at + 2, swapped);
              var next := at + 4 + len + (if len % 4 == 0 then 0 else 4 - len % 4);
              ScanOptions(file, swapped, at, end, divisor) ==
              if code == 0 then Some(divisor)
              else if code != 9 || len != 1 then ScanOptions(file, swapped, next, end, divisor)
              else if 0xC0 <= file[at + 4] then None
              else ScanOptions(file, swapped, next, end, Divisor(file[at + 4]).value)
  {
    hide Field16, WrappedPow10, Pow;
    if at + 4 <= end {
      FieldIsShort(file, at, swapped);
      FieldIsShort(file, at + 2, swapped);
    }
  }

  /** An interface description: its link type, and the resolution that the option loop finds, from a microsecond on,
      between the fixed fields and the trailing length. */
  lemma InterfaceExactly(c: Capture, at: nat, len: nat)
    requires 8 <= len && at + len <= |c.file| && at + 10 <= |c.file|
    ensures ScanInterface(c, at, len) ==
            match ScanOptions(c.file, c.swapped, at + 16, at + len - 4, 1_000_000)
            case None => None
            case Some(divisor) => Some(Interface(Short(c.file, at + 8, c.swapped), divisor))
  {
    hide Field16, ScanOptions, Short;
    FieldIsShort(c.file, at + 8, c.swapped);
  }

  /** A packet block at every position: undefined if it names an interface that is not registered or announced no
      usable resolution, or if its captured bytes are not all in the file; else the packet whose time, lengths and
      bytes lie there, with the link type and the resolution of that interface. */
  lemma PacketExactly(c: Capture, p: Position, len: nat)
    requires 8 <= len && p.cursor + len <= |c.file| && p.cursor + 28 <= |c.file|
    ensures var id, raw := Number(c.file, p.cursor + 8, c.swapped),
                           Number(c.file, p.cursor + 12, c.swapped) * 0x1_0000_0000 +
                           Number(c.file, p.cursor + 16, c.swapped);
            var caplen, origLen := Number(c.file, p.cursor + 20, c.swapped), Number(c.file, p.cursor + 24, c.swapped);
            var from, to := p.cursor + 28, p.cursor + 28 + caplen;
            ScanPacketBlock(c, p, len) ==
            if id !in p.interfaces || p.interfaces[id].divisor == 0 || |c.file| < to then Fault
            else
              AtPacket(p, Frame(ToTimespec(raw, p.interfaces[id].divisor), origLen, c.file[from..to],
                                p.interfaces[id].linkType), Position(p.cursor + len, p.interfaces, p.count))
  {
    hide Field32, Number, ToTimespec;
    FieldIsNumber(c.file, p.cursor + 8, c.swapped);
    FieldIsNumber(c.file, p.cursor + 12, c.swapped);
    FieldIsNumber(c.file, p.cursor + 16, c.swapped);
    FieldIsNumber(c.file, p.cursor + 20, c.swapped);
    FieldIsNumber(c.file, p.cursor + 24, c.swapped);
  }
}
