/** Writing legacy capture files in either byte order and resolution, and reading them back. */
module LegacyFormat {
  import opened Results
  import opened Bytes
  import opened Frames
  import opened Captures

  datatype Record = Record(sec: U32, fraction: U32, len: U32, data: seq<Byte>)

  /** `misc` holds the version, time zone, accuracy and snapshot length fields, which are not read. */
  datatype LegacyFile = LegacyFile(order: Order, nano: bool, linkType: U32, misc: seq<Byte>, records: seq<Record>)

  predicate ValidFile(f: LegacyFile) {
    |f.misc| == 16 && forall r :: r in f.records ==> |r.data| < 0x1_0000_0000
  }

  function EncodeRecord(r: Record, order: Order): (b: seq<Byte>)
    requires |r.data| < 0x1_0000_0000
    ensures |b| == RECORD_HEADER + |r.data|
  {
    Store32(r.sec, order) + (Store32(r.fraction, order) + (Store32(|r.data|, order) + (Store32(r.len, order) + r.data)))
  }

  function EncodeRecords(rs: seq<Record>, order: Order): seq<Byte>
    requires forall r :: r in rs ==> |r.data| < 0x1_0000_0000
  {
    if rs == [] then [] else EncodeRecord(rs[0], order) + EncodeRecords(rs[1..], order)
  }

  function EncodeHeader(f: LegacyFile): seq<Byte> {
    Store32(if f.nano then MAGIC_NANO_BE else MAGIC_MICRO_BE, f.order) + (f.misc + Store32(f.linkType, f.order))
  }

  function Encode(f: LegacyFile): seq<Byte>
    requires ValidFile(f)
  {
    EncodeHeader(f) + EncodeRecords(f.records, f.order)
  }

  /** The frame that a record stands for. */
  function FrameOf(r: Record, nano: bool, linkType: U32): Frame {
    Frame(Timespec(r.sec, if nano then r.fraction else r.fraction * 1000), r.len, r.data, linkType)
  }

  function FramesOf(f: LegacyFile): seq<Frame> {
    seq(|f.records|, i requires 0 <= i < |f.records| => FrameOf(f.records[i], f.nano, f.linkType))
  }

  /** The one record at `at` is read back. */
  lemma RecordReadBack(c: Capture, p: Position, r: Record, order: Order)
    requires |r.data| < 0x1_0000_0000 && At(c.file, p.cursor, EncodeRecord(r, order)) && c.swapped == (order == Big)
    ensures ScanRecord(c, p) ==
            AtPacket(p, FrameOf(r, c.isNanosecond, c.linkType), p.(cursor := p.cursor + RECORD_HEADER + |r.data|))
  {
    hide Store32, Field32;
    var at := p.cursor;
    var tail3 := Store32(r.len, order) + r.data;
    var tail2 := Store32(|r.data|, order) + tail3;
    var tail1 := Store32(r.fraction, order) + tail2;
    AtSplit(c.file, at, Store32(r.sec, order), tail1);
    AtSplit(c.file, at + 4, Store32(r.fraction, order), tail2);
    AtSplit(c.file, at + 8, Store32(|r.data|, order), tail3);
    AtSplit(c.file, at + 12, Store32(r.len, order), r.data);
    ReadBack32(c.file, at, r.sec, order);
    ReadBack32(c.file, at + 4, r.fraction, order);
    ReadBack32(c.file, at + 8, |r.data|, order);
    ReadBack32(c.file, at + 12, r.len, order);
  }

  lemma {:induction false} RecordsReadBack(c: Capture, p: Position, rs: seq<Record>, order: Order)
    requires !c.isPcapNg && c.swapped == (order == Big)
    requires forall r :: r in rs ==> |r.data| < 0x1_0000_0000
    requires At(c.file, p.cursor, EncodeRecords(rs, order)) && p.cursor + |EncodeRecords(rs, order)| == |c.file|
    ensures Safe(c, p)
    ensures |Decode(c, p)| == |rs|
    ensures forall i :: 0 <= i < |rs| ==> Decode(c, p)[i] == FrameOf(rs[i], c.isNanosecond, c.linkType)
    decreases |rs|
  {
    hide EncodeRecord, FrameOf, ScanRecord, ScanBlocks, Safe, Decode;
    if rs == [] {
      DecodeAtEnd(c, p);
    } else {
      var rest := EncodeRecords(rs[1..], order);
      AtSplit(c.file, p.cursor, EncodeRecord(rs[0], order), rest);
      RecordReadBack(c, p, rs[0], order);
      var next := p.(cursor := p.cursor + RECORD_HEADER + |rs[0].data|);
      RecordsReadBack(c, next, rs[1..], order);
      DecodePacket(c, p);
    }
  }

  lemma HeaderParts(f: LegacyFile)
    requires ValidFile(f)
    ensures var file := Encode(f);
            && At(file, 0, Store32(if f.nano then MAGIC_NANO_BE else MAGIC_MICRO_BE, f.order))
            && At(file, 20, Store32(f.linkType, f.order))
            && At(file, FILE_HEADER, EncodeRecords(f.records, f.order))
            && |file| == FILE_HEADER + |EncodeRecords(f.records, f.order)|
  {
    var file := Encode(f);
    var magic := Store32(if f.nano then MAGIC_NANO_BE else MAGIC_MICRO_BE, f.order);
    assert At(file, 0, EncodeHeader(f) + EncodeRecords(f.records, f.order));
    AtSplit(file, 0, EncodeHeader(f), EncodeRecords(f.records, f.order));
    AtSplit(file, 0, magic, f.misc + Store32(f.linkType, f.order));
    AtSplit(file, 4, f.misc, Store32(f.linkType, f.order));
  }

  lemma SwappedMagics()
    ensures Swap32(MAGIC_NANO_BE) == 0x4d3cb2a1 && Swap32(MAGIC_MICRO_BE) == MAGIC_MICRO_LE
  {
    BytesOfJoin32(0x4d, 0x3c, 0xb2, 0xa1);
    BytesOfJoin32(0xd4, 0xc3, 0xb2, 0xa1);
  }

  /** `open` recognises every file but those in swapped order with nanoseconds: the source's constant for
      them is not the byte swap of the native one, so they are taken for native microseconds. */
  lemma OpenRecognisesExactly(f: LegacyFile)
    requires ValidFile(f)
    ensures Open(Encode(f)).Ok?
    ensures Open(Encode(f)) == Ok(Capture(Encode(f), false, f.order == Big, f.nano, f.linkType)) <==>
            !(f.order == Big && f.nano)
  {
    hide Load32, Swap32, Store32, EncodeRecords, EncodeHeader;
    HeaderParts(f);
    HostReads32(Encode(f), 0, if f.nano then MAGIC_NANO_BE else MAGIC_MICRO_BE, f.order);
    SwappedMagics();
    ReadBack32(Encode(f), 20, f.linkType, f.order);
  }

  /** Replaying the file gives back its records, in order and with their timestamps. */
  ghost predicate Replays(f: LegacyFile)
    requires ValidFile(f)
  {
    && Open(Encode(f)).Ok?
    && var c := Open(Encode(f)).value;
       Safe(c, Start(c)) && Decode(c, Start(c)) == FramesOf(f)
  }

  lemma ReplaysIfRecognised(f: LegacyFile)
    requires ValidFile(f) && !(f.order == Big && f.nano)
    ensures Replays(f)
  {
    hide Encode, Open, Decode, Safe, EncodeRecords, FrameOf;
    OpenRecognisesExactly(f);
    HeaderParts(f);
    var c := Open(Encode(f)).value;
    RecordsReadBack(c, Start(c), f.records, f.order);
  }

  /** A swapped nanosecond file whose one record does not come back. */
  lemma SwappedNanoFails() returns (f: LegacyFile)
    ensures ValidFile(f) && f.order == Big && f.nano && !Replays(f)
  {
    f := LegacyFile(Big, true, 1, seq(16, _ => 0), [Record(0, 0, 0, [])]);
    var file := Encode(f);
    HeaderParts(f);
    HostReads32(file, 0, MAGIC_NANO_BE, Big);
    SwappedMagics();
    var c := Open(file).value;
    assert !c.swapped && c.linkType != 1 by {
      ReadBack32(file, 20, 1, Big);
    }
    assert Decode(c, Start(c)) != [] ==> Decode(c, Start(c))[0].linkType == c.linkType;
    assert FramesOf(f)[0].linkType == 1;
  }

  /** Round trip: all files of a byte order and resolution replay just when that combination is not
      swapped nanoseconds. */
  lemma LegacyRoundTripExactly(order: Order, nano: bool)
    ensures (forall f: LegacyFile :: ValidFile(f) && f.order == order && f.nano == nano ==> Replays(f)) <==>
            !(order == Big && nano)
  {
    if order == Big && nano {
      var f := SwappedNanoFails();
    } else {
      forall f: LegacyFile | ValidFile(f) && f.order == order && f.nano == nano ensures Replays(f) {
        ReplaysIfRecognised(f);
      }
    }
  }

  /** The byte order of a microsecond file is invisible after decoding. */
  lemma ByteOrderIsInvisible(f: LegacyFile)
    requires ValidFile(f) && !f.nano
    ensures var a, b := f.(order := Little), f.(order := Big);
            && Open(Encode(a)).Ok? && Open(Encode(b)).Ok?
            && var ca, cb := Open(Encode(a)).value, Open(Encode(b)).value;
               ca.linkType == cb.linkType && Decode(ca, Start(ca)) == Decode(cb, Start(cb))
  {
    var a, b := f.(order := Little), f.(order := Big);
    OpenRecognisesExactly(a);
    OpenRecognisesExactly(b);
    ReplaysIfRecognised(a);
    ReplaysIfRecognised(b);
    assert FramesOf(a) == FramesOf(b);
  }
}
