/** Writing pcapng files in either byte order, and reading them back: any mix of interface description
    blocks with options, packet blocks and other blocks, in one section. */
module PcapNgFormat {
  import opened Results
  import opened Bytes
  import opened Frames
  import opened Timestamps
  import opened Captures

  datatype Opt = Opt(code: U16, value: seq<Byte>)

  datatype Block =
    | InterfaceBlock(linkType: U16, reserved: U16, snapLen: U32, options: seq<Opt>, endMark: bool)
    | PacketBlock(ifId: U32, raw: U64, len: U32, data: seq<Byte>, trailer: seq<Byte>)
    | OtherBlock(other: U32, content: seq<Byte>)

  // ---------- Encoding ----------

  /** An option of any code but the end mark; a resolution must be one that the source handles exactly. */
  predicate ValidOption(o: Opt) {
    && o.code != 0 && |o.value| < 0x1_0000
    && (IsResolution(o) ==> o.value[0] <= 10 || 0x80 <= o.value[0] <= 0xA2)
  }

  predicate ValidOptions(os: seq<Opt>) {
    forall i :: 0 <= i < |os| ==> ValidOption(os[i])
  }

  /** An `if_tsresol` option. */
  predicate IsResolution(o: Opt) {
    o.code == 9 && |o.value| == 1
  }

  function EncodeOption(o: Opt, order: Order): (b: seq<Byte>)
    requires ValidOption(o)
    ensures |b| == 4 + Padded(|o.value|)
  {
    Store16(o.code, order) + (Store16(|o.value|, order) + (o.value + Zeros(Padded(|o.value|) - |o.value|)))
  }

  function EncodeOptions(os: seq<Opt>, order: Order): seq<Byte>
    requires ValidOptions(os)
  {
    if os == [] then [] else EncodeOption(os[0], order) + EncodeOptions(os[1..], order)
  }

  predicate ValidBlock(b: Block) {
    match b
    case InterfaceBlock(_, _, _, options, _) => ValidOptions(options)
    case PacketBlock(_, _, _, data, _) => |data| < 0x1_0000_0000
    case OtherBlock(other, _) => other != PCAPNG_IDB && other != PCAPNG_EPB
  }

  function Kind(b: Block): U32 {
    match b
    case InterfaceBlock(_, _, _, _, _) => PCAPNG_IDB
    case PacketBlock(_, _, _, _, _) => PCAPNG_EPB
    case OtherBlock(other, _) => other
  }

  function OptionsPart(b: Block, order: Order): seq<Byte>
    requires b.InterfaceBlock? && ValidBlock(b)
  {
    EncodeOptions(b.options, order) + Mark(b.endMark, order)
  }

  function Body(b: Block, order: Order): seq<Byte>
    requires ValidBlock(b)
  {
    match b
    case InterfaceBlock(linkType, reserved, snapLen, _, _) =>
      Store16(linkType, order) + (Store16(reserved, order) + (Store32(snapLen, order) + OptionsPart(b, order)))
    case PacketBlock(ifId, raw, len, data, trailer) =>
      Store32(ifId, order) + (Store32(raw / 0x1_0000_0000, order) + (Store32(raw % 0x1_0000_0000, order) +
      (Store32(|data|, order) + (Store32(len, order) + (data + (Zeros(Padded(|data|) - |data|) + trailer))))))
    case OtherBlock(_, content) => content
  }

  predicate Encodable(b: Block, order: Order) {
    ValidBlock(b) && 12 + |Body(b, order)| < 0x1_0000_0000
  }

  function EncodeBlock(b: Block, order: Order): (bytes: seq<Byte>)
    requires Encodable(b, order)
    ensures |bytes| == 12 + |Body(b, order)|
  {
    var total := 12 + |Body(b, order)|;
    Store32(Kind(b), order) + (Store32(total, order) + (Body(b, order) + Store32(total, order)))
  }

  function EncodeBlocks(bs: seq<Block>, order: Order): seq<Byte>
    requires forall i :: 0 <= i < |bs| ==> Encodable(bs[i], order)
  {
    if bs == [] then [] else EncodeBlock(bs[0], order) + EncodeBlocks(bs[1..], order)
  }

  // ---------- What a block list means ----------

  /** The resolution after a list of options: a later announcement replaces an earlier one. */
  function Resolution(os: seq<Opt>, divisor: U64): U64
    requires ValidOptions(os)
  {
    if os == [] then divisor
    else
      var last := os[|os| - 1];
      if IsResolution(last) then NextDivisor(last, divisor)
      else Resolution(os[..|os| - 1], divisor)
  }

  /** The interfaces that a block list declares, in order. */
  function Interfaces(bs: seq<Block>): seq<Interface>
    requires forall i :: 0 <= i < |bs| ==> ValidBlock(bs[i])
  {
    if bs == [] then []
    else if bs[0].InterfaceBlock? then
      assert ValidBlock(bs[0]);
      [Interface(bs[0].linkType, Resolution(bs[0].options, 1_000_000))] + Interfaces(bs[1..])
    else Interfaces(bs[1..])
  }

  /** Every packet block refers to an interface that has been declared before it. */
  predicate Declared(bs: seq<Block>, seen: nat) {
    bs == [] || ((bs[0].PacketBlock? ==> bs[0].ifId < seen) &&
                 Declared(bs[1..], seen + if bs[0].InterfaceBlock? then 1 else 0))
  }

  /** The frames of the packet blocks, each with the link type and resolution of the interface that
      `table` holds under its id. */
  function FramesVia(bs: seq<Block>, table: seq<Interface>): seq<Frame>
    requires Usable(table)
    requires forall i :: 0 <= i < |bs| && bs[i].PacketBlock? ==> bs[i].ifId < |table|
  {
    if bs == [] then []
    else if bs[0].PacketBlock? then
      [FrameOf(bs[0], table[bs[0].ifId])] + FramesVia(bs[1..], table)
    else FramesVia(bs[1..], table)
  }

  // ---------- Options ----------

  lemma {:induction false} ResolutionPrepend(o: Opt, os: seq<Opt>, divisor: U64)
    requires ValidOption(o) && ValidOptions(os)
    ensures Resolution([o] + os, divisor) ==
            Resolution(os, NextDivisor(o, divisor))
    decreases |os|
  {
    if IsResolution(o) { DivisorPositive(o.value[0]); }
    if os == [] {
      assert [o] + os == [o];
      assert Resolution([], divisor) == divisor;
    } else {
      ResolutionPrepend(o, os[..|os| - 1], divisor);
      assert ([o] + os)[..|os|] == [o] + os[..|os| - 1];
    }
  }

  lemma {:induction false} ResolutionPositive(os: seq<Opt>, divisor: U64)
    requires 0 < divisor && ValidOptions(os)
    ensures 0 < Resolution(os, divisor)
    ensures divisor <= MAX_DIVISOR ==> Resolution(os, divisor) <= MAX_DIVISOR
    decreases |os|
  {
    if os != [] {
      var last := os[|os| - 1];
      if IsResolution(last) { DivisorBoundIff(last.value[0]); } else { ResolutionPositive(os[..|os| - 1], divisor); }
    }
  }

  lemma OptionReadBack(file: seq<Byte>, at: nat, o: Opt, order: Order)
    requires ValidOption(o) && At(file, at, EncodeOption(o, order))
    ensures Field16(file, at, order == Big) == o.code && Field16(file, at + 2, order == Big) == |o.value|
    ensures o.value != [] ==> file[at + 4] == o.value[0]
  {
    var padded := o.value + Zeros(Padded(|o.value|) - |o.value|);
    AtSplit(file, at, Store16(o.code, order), Store16(|o.value|, order) + padded);
    AtSplit(file, at + 2, Store16(|o.value|, order), padded);
    ReadBack16(file, at, o.code, order);
    ReadBack16(file, at + 2, |o.value|, order);
    if o.value != [] {
      AtIndex(file, at + 4, padded, 0);
    }
  }

  /** What ends the option list: a mark, or the end of the block. */
  function Mark(endMark: bool, order: Order): seq<Byte> {
    if endMark then Store32(0, order) else []
  }

  lemma MarkReadBack(file: seq<Byte>, at: nat, endMark: bool, divisor: U64, order: Order)
    requires At(file, at, Mark(endMark, order)) && at + |Mark(endMark, order)| + 4 <= |file|
    ensures ScanOptions(file, order == Big, at, at + |Mark(endMark, order)|, divisor) == Some(Resolution([], divisor))
  {
    if endMark {
      assert Store32(0, order) == Store16(0, order) + Store16(0, order);
      AtSplit(file, at, Store16(0, order), Store16(0, order));
      ReadBack16(file, at, 0, order);
    }
  }

  /** The option loop computes the resolution, whether the list ends with a mark or with the block. */
  lemma {:induction false} OptionsReadBack(file: seq<Byte>, at: nat, end: nat, os: seq<Opt>, endMark: bool,
                                           divisor: U64, order: Order)
    requires ValidOptions(os) && end + 4 <= |file|
    requires At(file, at, EncodeOptions(os, order) + Mark(endMark, order))
    requires at + |EncodeOptions(os, order) + Mark(endMark, order)| == end
    ensures ScanOptions(file, order == Big, at, end, divisor) == Some(Resolution(os, divisor))
    decreases |os|
  {
    hide ScanOptions, Resolution, Divisor, Mark, EncodeOption;
    if os == [] {
      assert EncodeOptions(os, order) + Mark(endMark, order) == Mark(endMark, order);
      MarkReadBack(file, at, endMark, divisor, order);
    } else {
      var o, rest := os[0], EncodeOptions(os[1..], order) + Mark(endMark, order);
      var next, d := at + 4 + Padded(|o.value|), NextDivisor(o, divisor);
      assert EncodeOptions(os, order) + Mark(endMark, order) == EncodeOption(o, order) + rest;
      AtSplit(file, at, EncodeOption(o, order), rest);
      OptionsReadBack(file, next, end, os[1..], endMark, d, order);
      OptionStep(file, at, end, o, divisor, order, Resolution(os[1..], d));
      assert os == [o] + os[1..];
      ResolutionPrepend(o, os[1..], divisor);
    }
  }

  function NextDivisor(o: Opt, divisor: U64): U64
    requires ValidOption(o)
  {
    if IsResolution(o) then (DivisorPositive(o.value[0]); Divisor(o.value[0]).value) else divisor
  }

  lemma OptionTurn(file: seq<Byte>, swapped: bool, at: nat, end: nat, divisor: U64)
    requires at + 4 <= end <= |file| - 4 && Field16(file, at, swapped) != 0
    ensures var code, vlen := Field16(file, at, swapped), Field16(file, at + 2, swapped);
            ScanOptions(file, swapped, at, end, divisor) ==
            if code == 9 && vlen == 1 then
              if Divisor(file[at + 4]).None? then None
              else ScanOptions(file, swapped, at + 4 + Padded(vlen), end, Divisor(file[at + 4]).value)
            else ScanOptions(file, swapped, at + 4 + Padded(vlen), end, divisor)
  {
    hide Divisor, Field16;
  }

  /** One turn of the option loop. */
  lemma OptionStep(file: seq<Byte>, at: nat, end: nat, o: Opt, divisor: U64, order: Order, result: U64)
    requires ValidOption(o) && At(file, at, EncodeOption(o, order))
    requires at + |EncodeOption(o, order)| <= end <= |file| - 4
    requires ScanOptions(file, order == Big, at + 4 + Padded(|o.value|), end, NextDivisor(o, divisor)) == Some(result)
    ensures ScanOptions(file, order == Big, at, end, divisor) == Some(result)
  {
    hide Divisor, Field16, Padded, ScanOptions, EncodeOption, At;
    OptionReadBack(file, at, o, order);
    OptionTurn(file, order == Big, at, end, divisor);
    if IsResolution(o) { DivisorPositive(o.value[0]); }
  }

  // ---------- Blocks ----------

  /** The fields around the body of any block. */
  lemma HeaderReadBack(file: seq<Byte>, at: nat, b: Block, order: Order)
    requires Encodable(b, order) && At(file, at, EncodeBlock(b, order))
    ensures Field32(file, at, order == Big) == Kind(b)
    ensures Field32(file, at + 4, order == Big) == |EncodeBlock(b, order)|
    ensures At(file, at, Store32(Kind(b), order)) && At(file, at + BLOCK_HEADER, Body(b, order))
  {
    hide Body, Store32, Field32;
    var total := 12 + |Body(b, order)|;
    var rest := Body(b, order) + Store32(total, order);
    AtSplit(file, at, Store32(Kind(b), order), Store32(total, order) + rest);
    AtSplit(file, at + 4, Store32(total, order), rest);
    AtSplit(file, at + 8, Body(b, order), Store32(total, order));
    ReadBack32(file, at, Kind(b), order);
    ReadBack32(file, at + 4, total, order);
  }

  lemma InterfaceFieldsReadBack(file: seq<Byte>, at: nat, b: Block, order: Order)
    requires b.InterfaceBlock? && ValidBlock(b) && At(file, at, Body(b, order))
    ensures Field16(file, at, order == Big) == b.linkType
    ensures At(file, at + 8, OptionsPart(b, order)) && |Body(b, order)| == 8 + |OptionsPart(b, order)|
  {
    hide Field16, Store16, Store32, OptionsPart;
    var part := OptionsPart(b, order);
    AtSplit(file, at, Store16(b.linkType, order), Store16(b.reserved, order) + (Store32(b.snapLen, order) + part));
    AtSplit(file, at + 2, Store16(b.reserved, order), Store32(b.snapLen, order) + part);
    AtSplit(file, at + 4, Store32(b.snapLen, order), part);
    ReadBack16(file, at, b.linkType, order);
  }

  lemma InterfaceReadBack(c: Capture, at: nat, b: Block, order: Order)
    requires b.InterfaceBlock? && Encodable(b, order) && c.swapped == (order == Big)
    requires At(c.file, at, EncodeBlock(b, order))
    ensures ScanInterface(c, at, |EncodeBlock(b, order)|) ==
            Some(Interface(b.linkType, Resolution(b.options, 1_000_000)))
  {
    hide Field16, Field32, Store32, ScanOptions, Resolution, EncodeOptions, Mark, EncodeBlock, Body;
    HeaderReadBack(c.file, at, b, order);
    InterfaceFieldsReadBack(c.file, at + 8, b, order);
    OptionsReadBack(c.file, at + 16, at + 16 + |OptionsPart(b, order)|, b.options, b.endMark, 1_000_000, order);
  }

  lemma PacketFieldsReadBack(file: seq<Byte>, at: nat, b: Block, order: Order)
    requires b.PacketBlock? && ValidBlock(b) && At(file, at, Body(b, order))
    ensures at + 20 + |b.data| <= |file|
    ensures Field32(file, at, order == Big) == b.ifId
    ensures Field32(file, at + 4, order == Big) * 0x1_0000_0000 + Field32(file, at + 8, order == Big) == b.raw
    ensures Field32(file, at + 12, order == Big) == |b.data|
    ensures Field32(file, at + 16, order == Big) == b.len
    ensures file[at + 20..at + 20 + |b.data|] == b.data
  {
    hide Field32, Store32, Padded, Zeros, At;
    var tail := Zeros(Padded(|b.data|) - |b.data|) + b.trailer;
    var tail5 := Store32(b.len, order) + (b.data + tail);
    var tail4 := Store32(|b.data|, order) + tail5;
    var tail3 := Store32(b.raw % 0x1_0000_0000, order) + tail4;
    var tail2 := Store32(b.raw / 0x1_0000_0000, order) + tail3;
    AtSplit(file, at, Store32(b.ifId, order), tail2);
    AtSplit(file, at + 4, Store32(b.raw / 0x1_0000_0000, order), tail3);
    AtSplit(file, at + 8, Store32(b.raw % 0x1_0000_0000, order), tail4);
    AtSplit(file, at + 12, Store32(|b.data|, order), tail5);
    AtSplit(file, at + 16, Store32(b.len, order), b.data + tail);
    AtSplit(file, at + 20, b.data, tail);
    AtMeans(file, at + 20, b.data);
    ReadBack32(file, at, b.ifId, order);
    ReadBack32(file, at + 4, b.raw / 0x1_0000_0000, order);
    ReadBack32(file, at + 8, b.raw % 0x1_0000_0000, order);
    ReadBack32(file, at + 12, |b.data|, order);
    ReadBack32(file, at + 16, b.len, order);
  }

  /** The frame of a packet block that belongs to the interface `info`. */
  function FrameOf(b: Block, info: Interface): Frame
    requires b.PacketBlock? && 0 < info.divisor
  {
    Frame(ToTimespec(b.raw, info.divisor), b.len, b.data, info.linkType)
  }

  lemma PacketReadBack(c: Capture, p: Position, b: Block, info: Interface, order: Order)
    requires b.PacketBlock? && Encodable(b, order) && c.swapped == (order == Big)
    requires At(c.file, p.cursor, EncodeBlock(b, order))
    requires b.ifId in p.interfaces && p.interfaces[b.ifId] == info && 0 < info.divisor
    ensures ScanPacketBlock(c, p, |EncodeBlock(b, order)|) ==
            AtPacket(p, FrameOf(b, info), p.(cursor := p.cursor + |EncodeBlock(b, order)|))
  {
    hide Field32, Store32, ToTimespec, Body;
    HeaderReadBack(c.file, p.cursor, b, order);
    PacketFieldsReadBack(c.file, p.cursor + 8, b, order);
  }

  /** One turn of the block loop at an encoded block. */
  lemma BlockStep(c: Capture, p: Position, b: Block, order: Order)
    requires c.isPcapNg && c.swapped == (order == Big)
    requires Encodable(b, order) && At(c.file, p.cursor, EncodeBlock(b, order))
    ensures var past := p.cursor + |EncodeBlock(b, order)|;
            Next(c, p) ==
            match b
            case PacketBlock(_, _, _, _, _) => ScanPacketBlock(c, p, |EncodeBlock(b, order)|)
            case OtherBlock(_, _) => Next(c, p.(cursor := past))
            case InterfaceBlock(linkType, _, _, options, _) =>
              Next(c, Register(p, Interface(linkType, Resolution(options, 1_000_000))).(cursor := past))
  {
    hide Field32, Resolution, ScanPacketBlock, ScanInterface, EncodeBlock, Body;
    HeaderReadBack(c.file, p.cursor, b, order);
    if b.InterfaceBlock? {
      InterfaceReadBack(c, p.cursor, b, order);
    }
  }

  // ---------- Whole files ----------

  /** The interface table as the reader consults it, if the interfaces `prior` were registered before the
      pass began: an id finds the prior interface of that number, and only beyond those one of the file. */
  function Shifted(all: seq<Interface>, prior: seq<Interface>): (table: seq<Interface>)
    ensures |table| == |all|
    ensures prior == [] || all <= prior ==> table == all
  {
    seq(|all|, j requires 0 <= j < |all| => if j < |prior| then prior[j] else all[j - |prior|])
  }

  /** The interfaces `prior` were registered before this pass, and the first `seen` of the file in it. */
  ghost predicate Registered(p: Position, all: seq<Interface>, prior: seq<Interface>, seen: nat) {
    && seen <= |all| && p.count == |prior| + seen
    && (forall j :: 0 <= j < |prior| ==> j in p.interfaces && p.interfaces[j] == prior[j])
    && (forall j :: |prior| <= j < |prior| + seen ==> j in p.interfaces && p.interfaces[j] == all[j - |prior|])
  }

  lemma RegisterNext(p: Position, all: seq<Interface>, prior: seq<Interface>, seen: nat, at: nat)
    requires Registered(p, all, prior, seen) && seen < |all|
    ensures Registered(Register(p, all[seen]).(cursor := at), all, prior, seen + 1)
  {
  }

  lemma LookupRegistered(p: Position, all: seq<Interface>, prior: seq<Interface>, seen: nat, ifId: nat)
    requires Registered(p, all, prior, seen) && ifId < seen
    ensures ifId in p.interfaces && p.interfaces[ifId] == Shifted(all, prior)[ifId]
  {
  }

  lemma MovedKeepsRegistered(p: Position, all: seq<Interface>, prior: seq<Interface>, seen: nat, at: nat)
    requires Registered(p, all, prior, seen)
    ensures Registered(p.(cursor := at), all, prior, seen)
  {
  }

  ghost predicate Usable(table: seq<Interface>) {
    forall i :: 0 <= i < |table| ==> 0 < table[i].divisor
  }

  ghost predicate Readable(bs: seq<Block>, order: Order) {
    forall i :: 0 <= i < |bs| ==> Encodable(bs[i], order)
  }

  /** The declared interfaces agree with `all` from the `seen`-th on, and have usable resolutions. */
  ghost predicate Continues(bs: seq<Block>, all: seq<Interface>, seen: nat)
    requires forall i :: 0 <= i < |bs| ==> ValidBlock(bs[i])
  {
    && seen <= |all| && Interfaces(bs) == all[seen..] && Declared(bs, seen)
    && Usable(all)
  }

  lemma {:induction false} DeclaredIds(bs: seq<Block>, all: seq<Interface>, seen: nat)
    requires (forall i :: 0 <= i < |bs| ==> ValidBlock(bs[i])) && Continues(bs, all, seen)
    ensures forall i :: 0 <= i < |bs| && bs[i].PacketBlock? ==> bs[i].ifId < |all|
    decreases |bs|
  {
    if bs != [] {
      var isInterface := bs[0].InterfaceBlock?;
      assert ValidBlock(bs[0]);
      assert isInterface ==> all[seen + 1..] == all[seen..][1..];
      DeclaredIds(bs[1..], all, seen + if isInterface then 1 else 0);
      forall i | 0 <= i < |bs| && bs[i].PacketBlock? ensures bs[i].ifId < |all| {
        if i > 0 { assert bs[1..][i - 1] == bs[i]; }
      }
    }
  }

  /** The cursor stands in front of the encoded blocks `bs`, which reach to the end of the file and declare the
      interfaces of `all` from the `seen`-th on; those before are registered, after the interfaces `prior`. */
  ghost predicate Standing(c: Capture, p: Position, bs: seq<Block>, all: seq<Interface>, prior: seq<Interface>,
                           seen: nat, order: Order)
  {
    && c.isPcapNg && c.swapped == (order == Big) && Readable(bs, order) && Usable(prior)
    && At(c.file, p.cursor, EncodeBlocks(bs, order)) && p.cursor + |EncodeBlocks(bs, order)| == |c.file|
    && (EncodableIsValid(bs, order); Continues(bs, all, seen)) && Registered(p, all, prior, seen)
  }

  lemma EncodableIsValid(bs: seq<Block>, order: Order)
    requires Readable(bs, order)
    ensures forall i :: 0 <= i < |bs| ==> ValidBlock(bs[i])
  {
  }

  /** The first block of a list, and the rest. */
  lemma ListStep(bs: seq<Block>, all: seq<Interface>, seen: nat, order: Order)
    requires Readable(bs, order) && bs != [] && forall i :: 0 <= i < |bs| ==> ValidBlock(bs[i])
    requires Continues(bs, all, seen)
    ensures var b := bs[0];
            && Readable(bs[1..], order) && (forall i :: 0 <= i < |bs[1..]| ==> ValidBlock(bs[1..][i]))
            && Continues(bs[1..], all, seen + if b.InterfaceBlock? then 1 else 0)
            && (b.PacketBlock? ==> b.ifId < seen <= |all|)
            && (b.InterfaceBlock? ==>
                  seen < |all| && all[seen] == Interface(b.linkType, Resolution(b.options, 1_000_000)))
  {
    hide Encodable, Resolution;
    assert bs[0].InterfaceBlock? ==> all[seen] == all[seen..][0] && all[seen + 1..] == all[seen..][1..];
  }

  lemma EncodeFirst(bs: seq<Block>, order: Order)
    requires Readable(bs, order) && bs != []
    ensures Encodable(bs[0], order) && Readable(bs[1..], order)
    ensures EncodeBlocks(bs, order) == EncodeBlock(bs[0], order) + EncodeBlocks(bs[1..], order)
  {
    hide EncodeBlock, Encodable;
  }

  lemma BytesStep(file: seq<Byte>, at: nat, bs: seq<Block>, order: Order)
    requires Readable(bs, order) && bs != [] && At(file, at, EncodeBlocks(bs, order))
    ensures Encodable(bs[0], order) && At(file, at, EncodeBlock(bs[0], order))
    ensures Readable(bs[1..], order) && At(file, at + |EncodeBlock(bs[0], order)|, EncodeBlocks(bs[1..], order))
    ensures |EncodeBlocks(bs, order)| == |EncodeBlock(bs[0], order)| + |EncodeBlocks(bs[1..], order)|
  {
    hide EncodeBlock, EncodeBlocks, Encodable, At;
    EncodeFirst(bs, order);
    AtSplit(file, at, EncodeBlock(bs[0], order), EncodeBlocks(bs[1..], order));
  }

  lemma ShiftedUsable(all: seq<Interface>, prior: seq<Interface>)
    requires Usable(all) && Usable(prior)
    ensures Usable(Shifted(all, prior))
  {
  }

  /** The block in front of the cursor, and what is known of it. */
  lemma StandingFirst(c: Capture, p: Position, bs: seq<Block>, all: seq<Interface>, prior: seq<Interface>,
                      seen: nat, order: Order)
    requires Standing(c, p, bs, all, prior, seen, order) && bs != []
    ensures c.isPcapNg && c.swapped == (order == Big) && Registered(p, all, prior, seen)
    ensures Encodable(bs[0], order) && ValidBlock(bs[0]) && At(c.file, p.cursor, EncodeBlock(bs[0], order))
    ensures Usable(Shifted(all, prior)) && (bs[0].PacketBlock? ==> bs[0].ifId < seen <= |all|)
    ensures bs[0].InterfaceBlock? ==>
              seen < |all| && all[seen] == Interface(bs[0].linkType, Resolution(bs[0].options, 1_000_000))
  {
    hide EncodeBlock, EncodeBlocks, Encodable, Registered, Continues, At, Shifted, Resolution;
    EncodableIsValid(bs, order);
    ListStep(bs, all, seen, order);
    BytesStep(c.file, p.cursor, bs, order);
    ContinuesUsable(bs, all, seen);
    ShiftedUsable(all, prior);
  }

  /** Behind that block, with its interface registered if it declares one, stand the rest. */
  lemma StandingRest(c: Capture, p: Position, next: Position, bs: seq<Block>, all: seq<Interface>,
                     prior: seq<Interface>, seen: nat, k: nat, order: Order)
    requires Standing(c, p, bs, all, prior, seen, order) && bs != [] && Encodable(bs[0], order)
    requires next.cursor == p.cursor + |EncodeBlock(bs[0], order)|
    requires k == (seen + if bs[0].InterfaceBlock? then 1 else 0) && Registered(next, all, prior, k)
    ensures Standing(c, next, bs[1..], all, prior, k, order)
  {
    hide EncodeBlock, EncodeBlocks, Encodable, Registered, Continues, At, Resolution;
    EncodableIsValid(bs, order);
    ListStep(bs, all, seen, order);
    BytesStep(c.file, p.cursor, bs, order);
  }

  /** What the block loop makes of the block in front of it, and where it then stands. */
  lemma StandingStep(c: Capture, p: Position, bs: seq<Block>, all: seq<Interface>, prior: seq<Interface>,
                     seen: nat, order: Order)
      returns (next: Position)
    requires Standing(c, p, bs, all, prior, seen, order) && bs != []
    ensures Usable(Shifted(all, prior))
    ensures bs[0].PacketBlock? ==>
              bs[0].ifId < |all| && Next(c, p) == AtPacket(p, FrameOf(bs[0], Shifted(all, prior)[bs[0].ifId]), next)
    ensures !bs[0].PacketBlock? ==> Next(c, p) == Next(c, next)
    ensures Standing(c, next, bs[1..], all, prior, seen + if bs[0].InterfaceBlock? then 1 else 0, order)
  {
    hide EncodeBlock, ScanPacketBlock, FrameOf, Registered, Resolution, Register, Encodable, Next;
    hide Standing, At, Shifted;
    StandingFirst(c, p, bs, all, prior, seen, order);
    var b := bs[0];
    var past := p.cursor + |EncodeBlock(b, order)|;
    BlockStep(c, p, b, order);
    if b.InterfaceBlock? {
      RegisterNext(p, all, prior, seen, past);
      next := Register(p, all[seen]).(cursor := past);
      StandingRest(c, p, next, bs, all, prior, seen, seen + 1, order);
    } else {
      next := p.(cursor := past);
      MovedKeepsRegistered(p, all, prior, seen, past);
      StandingRest(c, p, next, bs, all, prior, seen, seen, order);
      if b.PacketBlock? {
        LookupRegistered(p, all, prior, seen, b.ifId);
        PacketReadBack(c, p, b, Shifted(all, prior)[b.ifId], order);
      }
    }
  }

  lemma ContinuesUsable(bs: seq<Block>, all: seq<Interface>, seen: nat)
    requires (forall i :: 0 <= i < |bs| ==> ValidBlock(bs[i])) && Continues(bs, all, seen)
    ensures Usable(all) && seen <= |all|
  {
  }

  lemma StandingIds(c: Capture, p: Position, bs: seq<Block>, all: seq<Interface>, prior: seq<Interface>,
                    seen: nat, order: Order)
    requires Standing(c, p, bs, all, prior, seen, order)
    ensures forall i :: 0 <= i < |bs| && bs[i].PacketBlock? ==> bs[i].ifId < |all|
    ensures Usable(Shifted(all, prior))
  {
    hide Continues, Registered, EncodeBlocks, Readable;
    EncodableIsValid(bs, order);
    DeclaredIds(bs, all, seen);
    ContinuesUsable(bs, all, seen);
  }

  lemma NothingLeft(c: Capture, p: Position, all: seq<Interface>, prior: seq<Interface>, seen: nat, order: Order)
    requires Standing(c, p, [], all, prior, seen, order)
    ensures Next(c, p) == AtEnd(p) && p.cursor == |c.file| && Registered(p, all, prior, |all|)
  {
  }

  /** Reading an encoded block list to the end meets exactly its packet blocks, in order and once each,
      each with the interface that the table holds for it. */
  lemma {:induction false} BlocksReadBack(c: Capture, p: Position, bs: seq<Block>, all: seq<Interface>,
                                          prior: seq<Interface>, seen: nat, order: Order)
    requires Standing(c, p, bs, all, prior, seen, order)
    ensures forall i :: 0 <= i < |bs| && bs[i].PacketBlock? ==> bs[i].ifId < |all|
    ensures Usable(Shifted(all, prior))
    ensures Safe(c, p) && Decode(c, p) == FramesVia(bs, Shifted(all, prior))
    ensures Registered(End(c, p), all, prior, |all|)
    decreases |bs|
  {
    hide Standing, FrameOf, Registered, Next, Decode, Safe, End, After, Shifted, Usable;
    StandingIds(c, p, bs, all, prior, seen, order);
    if bs == [] {
      NothingLeft(c, p, all, prior, seen, order);
      DecodeAtEnd(c, p);
    } else {
      var next := StandingStep(c, p, bs, all, prior, seen, order);
      BlocksReadBack(c, next, bs[1..], all, prior, seen + if bs[0].InterfaceBlock? then 1 else 0, order);
      if bs[0].PacketBlock? {
        DecodePacket(c, p);
      } else {
        SafeMeansNoFault(c, next);
        SameNextSameDecode(c, p, next);
      }
    }
  }

  /** Wherever the reader stops, in front of a packet, behind it, or at the end, it stands in front of the
      rest of the blocks. */
  lemma {:induction false} NextStanding(c: Capture, p: Position, bs: seq<Block>, all: seq<Interface>,
                                        prior: seq<Interface>, seen: nat, order: Order)
      returns (rest: seq<Block>, k: nat)
    requires Standing(c, p, bs, all, prior, seen, order)
    ensures !Next(c, p).Fault? && Standing(c, Next(c, p).pos, rest, all, prior, k, order)
    ensures Next(c, p).AtPacket? ==> rest != [] && Standing(c, Next(c, p).next, rest[1..], all, prior, k, order)
    decreases |bs|
  {
    hide EncodeBlocks, FrameOf, Standing, Next;
    if bs == [] {
      NothingLeft(c, p, all, prior, seen, order);
      rest, k := bs, seen;
    } else {
      var next := StandingStep(c, p, bs, all, prior, seen, order);
      if bs[0].PacketBlock? {
        rest, k := bs, seen;
      } else {
        rest, k := NextStanding(c, next, bs[1..], all, prior, seen + if bs[0].InterfaceBlock? then 1 else 0, order);
      }
    }
  }

  /** The same after any number of packets. */
  lemma {:induction false} AfterStanding(c: Capture, p: Position, bs: seq<Block>, all: seq<Interface>,
                                         prior: seq<Interface>, seen: nat, order: Order, n: nat)
      returns (rest: seq<Block>, k: nat)
    requires Standing(c, p, bs, all, prior, seen, order)
    ensures Standing(c, After(c, p, n), rest, all, prior, k, order)
    decreases n
  {
    hide Standing, Next;
    rest, k := bs, seen;
    if n > 0 {
      rest, k := NextStanding(c, p, bs, all, prior, seen, order);
      if Next(c, p).AtPacket? {
        rest, k := AfterStanding(c, Next(c, p).next, rest[1..], all, prior, k, order, n - 1);
      }
    }
  }
}
