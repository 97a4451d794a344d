/** Whole pcapng files: what a replay yields, and what rewinding does to it. */
module PcapNgTheorems {
  import opened Results
  import opened Bytes
  import opened Frames
  import opened Timestamps
  import opened Captures
  import opened PcapNgFormat

  /** A file of one section; `section` is what follows the byte-order mark in the section header. */
  datatype NgFile = NgFile(order: Order, section: seq<Byte>, blocks: seq<Block>)

  function SectionHeader(f: NgFile): Block {
    OtherBlock(MAGIC_PCAPNG_SHB, Store32(PCAPNG_BOM, f.order) + f.section)
  }

  function AllBlocks(f: NgFile): seq<Block> {
    [SectionHeader(f)] + f.blocks
  }

  ghost predicate ValidFile(f: NgFile) {
    && 12 <= |f.section| && Readable(AllBlocks(f), f.order) && AllValid(f.blocks)
    && (forall i :: 0 <= i < |f.blocks| && f.blocks[i].OtherBlock? ==> f.blocks[i].other != MAGIC_PCAPNG_SHB)
    && Declared(f.blocks, 0)
  }

  function Encode(f: NgFile): seq<Byte>
    requires Readable(AllBlocks(f), f.order)
  {
    EncodeBlocks(AllBlocks(f), f.order)
  }

  /** What `open` is to find out. */
  function CaptureOf(f: NgFile): Capture
    requires Readable(AllBlocks(f), f.order)
  {
    Capture(Encode(f), true, f.order == Big, true, 0)
  }

  ghost predicate AllValid(bs: seq<Block>) {
    forall i :: 0 <= i < |bs| ==> ValidBlock(bs[i])
  }

  lemma BlocksValid(f: NgFile)
    requires ValidFile(f)
    ensures AllValid(AllBlocks(f)) && Interfaces(AllBlocks(f)) == Interfaces(f.blocks)
  {
    hide Encodable;
    EncodableIsValid(AllBlocks(f), f.order);
    assert AllBlocks(f)[1..] == f.blocks;
  }

  lemma {:induction false} InterfacesUsable(bs: seq<Block>)
    requires AllValid(bs)
    ensures forall i :: 0 <= i < |Interfaces(bs)| ==> 0 < Interfaces(bs)[i].divisor <= MAX_DIVISOR
    decreases |bs|
  {
    if bs != [] {
      InterfacesUsable(bs[1..]);
      if bs[0].InterfaceBlock? {
        ResolutionPositive(bs[0].options, 1_000_000);
      }
    }
  }

  /** At the start of the file the reader stands in front of all its blocks. */
  lemma FileStanding(f: NgFile, p: Position, prior: seq<Interface>)
    requires ValidFile(f) && p.cursor == 0 && Usable(prior) && Registered(p, Interfaces(f.blocks), prior, 0)
    ensures Standing(CaptureOf(f), p, AllBlocks(f), Interfaces(f.blocks), prior, 0, f.order)
  {
    hide Encodable, EncodeBlock, Registered;
    BlocksValid(f);
    InterfacesUsable(AllBlocks(f));
    var all := Interfaces(AllBlocks(f));
    assert all[0..] == all;
    assert AllBlocks(f)[1..] == f.blocks;
  }

  /** `open` recognises the file and its byte order. */
  lemma OpenRecognises(f: NgFile)
    requires ValidFile(f)
    ensures Open(Encode(f)) == Ok(CaptureOf(f))
  {
    hide Load32, Swap32, Store32, EncodeBlock;
    var file := Encode(f);
    var header := SectionHeader(f);
    assert Encodable(header, f.order) by { assert AllBlocks(f)[0] == header; }
    assert file == EncodeBlock(header, f.order) + EncodeBlocks(AllBlocks(f)[1..], f.order);
    assert At(file, 0, EncodeBlock(header, f.order) + EncodeBlocks(AllBlocks(f)[1..], f.order));
    AtSplit(file, 0, EncodeBlock(header, f.order), EncodeBlocks(AllBlocks(f)[1..], f.order));
    HeaderReadBack(file, 0, header, f.order);
    AtSplit(file, 8, Store32(PCAPNG_BOM, f.order), f.section);
    HostReads32(file, 0, MAGIC_PCAPNG_SHB, f.order);
    HostReads32(file, 8, PCAPNG_BOM, f.order);
    SectionMagics();
  }

  lemma SectionMagics()
    ensures Swap32(MAGIC_PCAPNG_SHB) == MAGIC_PCAPNG_SHB && Swap32(PCAPNG_BOM) == PCAPNG_BOM_SWAP
  {
    BytesOfJoin32(0x0A, 0x0D, 0x0D, 0x0A);
    BytesOfJoin32(0x1A, 0x2B, 0x3C, 0x4D);
    BytesOfJoin32(0x4D, 0x3C, 0x2B, 0x1A);
  }

  lemma FileIds(f: NgFile)
    requires ValidFile(f)
    ensures Usable(Interfaces(f.blocks))
    ensures forall i :: 0 <= i < |f.blocks| && f.blocks[i].PacketBlock? ==> f.blocks[i].ifId < |Interfaces(f.blocks)|
  {
    hide Standing, Interfaces;
    InterfacesUsable(f.blocks);
    FileStanding(f, Start(CaptureOf(f)), []);
    StandingIds(CaptureOf(f), Start(CaptureOf(f)), AllBlocks(f), Interfaces(f.blocks), [], 0, f.order);
    forall i | 0 <= i < |f.blocks| && f.blocks[i].PacketBlock? ensures f.blocks[i].ifId < |Interfaces(f.blocks)| {
      assert AllBlocks(f)[i + 1] == f.blocks[i];
    }
  }

  /** A pass that begins at the start of the file with the interfaces `prior` already registered. */
  lemma PassYields(f: NgFile, p: Position, prior: seq<Interface>)
    requires ValidFile(f) && p.cursor == 0 && Usable(prior) && Registered(p, Interfaces(f.blocks), prior, 0)
    ensures Usable(Interfaces(f.blocks)) && Usable(Shifted(Interfaces(f.blocks), prior))
    ensures forall i :: 0 <= i < |f.blocks| && f.blocks[i].PacketBlock? ==> f.blocks[i].ifId < |Interfaces(f.blocks)|
    ensures var c, all := CaptureOf(f), Interfaces(f.blocks);
            && Safe(c, p) && Decode(c, p) == FramesVia(f.blocks, Shifted(all, prior))
            && Registered(End(c, p), all, prior, |all|)
  {
    hide Standing, Interfaces, Safe, Decode, End, Registered, Encode;
    FileIds(f);
    var c, all := CaptureOf(f), Interfaces(f.blocks);
    FileStanding(f, p, prior);
    BlocksReadBack(c, p, AllBlocks(f), all, prior, 0, f.order);
    assert AllBlocks(f)[1..] == f.blocks;
  }

  /** `raw / divisor` seconds, rounded down to a nanosecond. */
  function IdealTime(raw: U64, divisor: U64): Timespec
    requires 0 < divisor
  {
    Timespec(raw * GIGA / divisor / GIGA, raw * GIGA / divisor % GIGA)
  }

  /** The seconds of every packet fit a signed 64-bit integer. */
  ghost predicate TimesFit(bs: seq<Block>, table: seq<Interface>) {
    forall i :: 0 <= i < |bs| && bs[i].PacketBlock? ==>
      bs[i].ifId < |table| && 0 < table[bs[i].ifId].divisor && bs[i].raw / table[bs[i].ifId].divisor < TWO63
  }

  /** The packets that a block list describes: for each packet block, in order, its data with the ideal
      time and the link type of the interface whose id it carries. */
  function Packets(bs: seq<Block>, table: seq<Interface>): seq<Frame>
    requires TimesFit(bs, table)
  {
    if bs == [] then []
    else if bs[0].PacketBlock? then
      var info := table[bs[0].ifId];
      [Frame(IdealTime(bs[0].raw, info.divisor), bs[0].len, bs[0].data, info.linkType)] + Packets(bs[1..], table)
    else Packets(bs[1..], table)
  }

  lemma TimeIsIdeal(raw: U64, divisor: U64)
    requires 0 < divisor <= MAX_DIVISOR && raw / divisor < TWO63
    ensures ToTimespec(raw, divisor) == IdealTime(raw, divisor)
  {
    SmallDivisorExact(raw, divisor);
    var ts := ToTimespec(raw, divisor);
    DivisionUnique(raw * GIGA / divisor, GIGA, ts.sec, ts.nsec);
  }

  lemma {:induction false} FramesAreIdeal(bs: seq<Block>, table: seq<Interface>)
    requires TimesFit(bs, table) && Usable(table) && forall i :: 0 <= i < |table| ==> table[i].divisor <= MAX_DIVISOR
    ensures FramesVia(bs, table) == Packets(bs, table)
    decreases |bs|
  {
    if bs != [] {
      FramesAreIdeal(bs[1..], table);
      if bs[0].PacketBlock? {
        TimeIsIdeal(bs[0].raw, table[bs[0].ifId].divisor);
      }
    }
  }

  /** Whole-run correctness: reading an encoded file to the end meets nothing undefined and yields exactly
      the packet blocks, in order and once each, with the link type and resolution of the interface whose
      id they carry; in either byte order, whatever options and other blocks lie between them. */
  lemma PcapNgWholeRun(f: NgFile)
    requires ValidFile(f) && TimesFit(f.blocks, Interfaces(f.blocks))
    ensures Open(Encode(f)).Ok?
    ensures var c := Open(Encode(f)).value;
            Safe(c, Start(c)) && Decode(c, Start(c)) == Packets(f.blocks, Interfaces(f.blocks))
  {
    BlocksValid(f);
    OpenRecognises(f);
    InterfacesUsable(f.blocks);
    var all := Interfaces(f.blocks);
    PassYields(f, Start(CaptureOf(f)), []);
    FramesAreIdeal(f.blocks, all);
  }

  // ---------- Rewinding ----------

  /** Where the pass begins that follows `passes` complete ones, each ended by `rewind`. */
  function PassStart(c: Capture, passes: nat): Position {
    if passes == 0 then Start(c) else Rewound(c, End(c, PassStart(c, passes - 1)))
  }

  /** Rewinding makes what was registered in a pass precede the next one. */
  lemma RewoundRegistered(c: Capture, p: Position, all: seq<Interface>, prior: seq<Interface>, seen: nat)
    requires Registered(p, all, prior, seen)
    ensures Registered(Rewound(c, p), all, prior + all[..seen], 0)
  {
  }

  lemma {:induction false} PassStartRegistered(f: NgFile, passes: nat) returns (prior: seq<Interface>)
    requires ValidFile(f)
    ensures PassStart(CaptureOf(f), passes).cursor == 0 && Usable(prior)
    ensures Registered(PassStart(CaptureOf(f), passes), Interfaces(f.blocks), prior, 0)
    ensures prior == [] || Interfaces(f.blocks) <= prior
    decreases passes
  {
    hide End, Interfaces, Encode;
    if passes == 0 {
      prior := [];
    } else {
      var c, all := CaptureOf(f), Interfaces(f.blocks);
      var before := PassStartRegistered(f, passes - 1);
      PassYields(f, PassStart(c, passes - 1), before);
      RewoundRegistered(c, End(c, PassStart(c, passes - 1)), all, before, |all|);
      assert all[..|all|] == all;
      prior := before + all;
    }
  }

  /** However often a replay is run to the end and rewound, the next pass yields what the first did,
      although the interface counter and table are never reset. */
  lemma EveryPassIsTheFirst(f: NgFile, passes: nat)
    requires ValidFile(f)
    ensures var c := CaptureOf(f);
            Safe(c, PassStart(c, passes)) && Decode(c, PassStart(c, passes)) == Decode(c, Start(c))
  {
    hide Decode, Safe, End, Interfaces, Encode;
    var prior := PassStartRegistered(f, passes);
    PassYields(f, PassStart(CaptureOf(f), passes), prior);
    PassYields(f, Start(CaptureOf(f)), []);
  }

  /** The interface ids of the packet blocks, and the frames that a table gives them. */
  lemma {:induction false} SameFramesIff(bs: seq<Block>, t: seq<Interface>, u: seq<Interface>)
    requires |t| == |u| && Usable(t) && Usable(u)
    requires forall i :: 0 <= i < |bs| && bs[i].PacketBlock? ==> bs[i].ifId < |t|
    ensures FramesVia(bs, t) == FramesVia(bs, u) <==>
            forall i :: 0 <= i < |bs| && bs[i].PacketBlock? ==>
              FrameOf(bs[i], t[bs[i].ifId]) == FrameOf(bs[i], u[bs[i].ifId])
    decreases |bs|
  {
    if bs != [] {
      var rest := bs[1..];
      SameFramesIff(rest, t, u);
      assert forall i :: 0 <= i < |rest| ==> rest[i] == bs[i + 1];
      if bs[0].PacketBlock? {
        assert FramesVia(bs, t)[1..] == FramesVia(rest, t) && FramesVia(bs, u)[1..] == FramesVia(rest, u);
        assert FramesVia(bs, t)[0] == FrameOf(bs[0], t[bs[0].ifId]);
        assert FramesVia(bs, u)[0] == FrameOf(bs[0], u[bs[0].ifId]);
      }
    }
  }

  /** The interfaces registered at a position, all of them usable. */
  ghost predicate Known(p: Position) {
    forall j :: 0 <= j < p.count ==> j in p.interfaces && 0 < p.interfaces[j].divisor
  }

  ghost function PriorOf(p: Position): (prior: seq<Interface>)
    requires Known(p)
    ensures Usable(prior)
  {
    seq(p.count, j requires 0 <= j < p.count => p.interfaces[j])
  }

  /** Under the table that a pass from `p` consults, every packet of the file is what it is in the first pass.
      Below the interface counter the table holds the old entries; above, the file's interfaces that much late. */
  ghost predicate Unshifted(bs: seq<Block>, all: seq<Interface>, p: Position)
    requires Usable(all) && Known(p)
  {
    forall i :: 0 <= i < |bs| && bs[i].PacketBlock? && bs[i].ifId < |all| ==>
      var id := bs[i].ifId;
      FrameOf(bs[i], all[id]) == FrameOf(bs[i], if id < p.count then p.interfaces[id] else all[id - p.count])
  }

  /** A pass from the start of the file, whatever was registered before it: nothing undefined is met, and it
      yields what the first pass does if and only if no packet is shifted to a different interface. */
  lemma PassAlikeExactly(f: NgFile, p: Position)
    requires ValidFile(f) && p.cursor == 0 && Known(p)
    ensures Usable(Interfaces(f.blocks))
    ensures var c := CaptureOf(f);
            Safe(c, p) && (Decode(c, p) == Decode(c, Start(c)) <==> Unshifted(f.blocks, Interfaces(f.blocks), p))
  {
    hide Decode, Safe, End, Interfaces, Encode, FramesVia, FrameOf;
    var c, all, prior := CaptureOf(f), Interfaces(f.blocks), PriorOf(p);
    PassYields(f, p, prior);
    PassYields(f, Start(c), []);
    SameFramesIff(f.blocks, Shifted(all, prior), all);
  }

  /** Every packet of an interface numbered k or above would be the same under the one numbered k lower. */
  ghost predicate ShiftHarmless(bs: seq<Block>, all: seq<Interface>, k: nat)
    requires Usable(all)
  {
    forall i :: 0 <= i < |bs| && bs[i].PacketBlock? && k <= bs[i].ifId < |all| ==>
      FrameOf(bs[i], all[bs[i].ifId]) == FrameOf(bs[i], all[bs[i].ifId - k])
  }

  lemma RegisteredKnown(p: Position, all: seq<Interface>, prior: seq<Interface>, seen: nat)
    requires Registered(p, all, prior, seen) && Usable(all) && Usable(prior)
    ensures Known(p)
  {
  }

  /** Rewinding in the first pass, when `k` interfaces had been registered. */
  lemma FirstPassShift(f: NgFile, q: Position, k: nat)
    requires ValidFile(f) && Registered(q, Interfaces(f.blocks), [], k)
    ensures Usable(Interfaces(f.blocks)) && q.count == k
    ensures var c := CaptureOf(f);
            && Safe(c, Rewound(c, q))
            && (Decode(c, Rewound(c, q)) == Decode(c, Start(c)) <==> ShiftHarmless(f.blocks, Interfaces(f.blocks), k))
  {
    hide Decode, Safe, Encode, FrameOf, Interfaces;
    var c := CaptureOf(f);
    FileIds(f);
    RegisteredKnown(q, Interfaces(f.blocks), [], k);
    PassAlikeExactly(f, Rewound(c, q));
  }

  /** Rewinding in mid-pass, after `n` packets, just behind the last of them or, as after a wait, in front of the
      next: if `k` interfaces had been registered, the next pass is the first one again just when the shift by k
      is harmless. */
  lemma RewindInMidPassExactly(f: NgFile, n: nat, waited: bool)
    requires ValidFile(f)
    ensures Usable(Interfaces(f.blocks))
    ensures var c := CaptureOf(f);
            var behind := After(c, Start(c), n);
            && !Next(c, behind).Fault?
            && var q := if waited then Next(c, behind).pos else behind;
               && Safe(c, Rewound(c, q))
               && (Decode(c, Rewound(c, q)) == Decode(c, Start(c)) <==>
                   ShiftHarmless(f.blocks, Interfaces(f.blocks), q.count))
  {
    hide Decode, Safe, After, Encode, Encodable, Interfaces, ShiftHarmless, Standing, Next;
    var c, all := CaptureOf(f), Interfaces(f.blocks);
    FileStanding(f, Start(c), []);
    var rest, k := AfterStanding(c, Start(c), AllBlocks(f), all, [], 0, f.order, n);
    var behind := After(c, Start(c), n);
    var rest', k' := NextStanding(c, behind, rest, all, [], k, f.order);
    if waited {
      StandingRegistered(c, Next(c, behind).pos, rest', all, [], k', f.order);
      FirstPassShift(f, Next(c, behind).pos, k');
    } else {
      StandingRegistered(c, behind, rest, all, [], k, f.order);
      FirstPassShift(f, behind, k);
    }
  }

  lemma StandingRegistered(c: Capture, p: Position, bs: seq<Block>, all: seq<Interface>, prior: seq<Interface>,
                           seen: nat, order: Order)
    requires Standing(c, p, bs, all, prior, seen, order)
    ensures Registered(p, all, prior, seen)
  {
  }

  /** Two interfaces of different link types, each declared just before its packet. */
  function TwoInterfaces(): NgFile {
    NgFile(Little, Zeros(12),
           [InterfaceBlock(DLT_EN10MB, 0, 0, [], false), PacketBlock(0, 0, 0, [], []),
            InterfaceBlock(DLT_LINUX_SLL, 0, 0, [], false), PacketBlock(1, 0, 0, [], [])])
  }

  lemma InterfacesStep(b: Block, rest: seq<Block>)
    requires AllValid([b] + rest)
    ensures AllValid(rest)
    ensures b.InterfaceBlock? ==>
              ValidBlock(b) && Interfaces([b] + rest) ==
                               [Interface(b.linkType, Resolution(b.options, 1_000_000))] + Interfaces(rest)
    ensures !b.InterfaceBlock? ==> Interfaces([b] + rest) == Interfaces(rest)
  {
    assert ValidBlock(([b] + rest)[0]);
    assert ([b] + rest)[1..] == rest;
    forall i | 0 <= i < |rest| ensures ValidBlock(rest[i]) {
      assert ([b] + rest)[i + 1] == rest[i];
    }
  }

  lemma DeclaredStep(b: Block, rest: seq<Block>, seen: nat)
    requires (b.PacketBlock? ==> b.ifId < seen) && Declared(rest, seen + if b.InterfaceBlock? then 1 else 0)
    ensures Declared([b] + rest, seen)
  {
    assert ([b] + rest)[1..] == rest;
  }

  lemma TwoInterfacesEncodable()
    ensures Readable(AllBlocks(TwoInterfaces()), Little) && AllValid(TwoInterfaces().blocks)
  {
    var f := TwoInterfaces();
    var all := AllBlocks(f);
    forall i | 0 <= i < |all| ensures Encodable(all[i], Little) {
      if all[i].OtherBlock? {
        assert |Body(all[i], Little)| == 16;
      } else if all[i].InterfaceBlock? {
        assert |Body(all[i], Little)| == 8;
      } else {
        assert |Body(all[i], Little)| == 20;
      }
    }
    forall i | 0 <= i < |f.blocks| ensures ValidBlock(f.blocks[i]) {
      assert Encodable(all[i + 1], Little);
    }
  }

  lemma TwoInterfacesValid()
    ensures ValidFile(TwoInterfaces())
    ensures Interfaces(TwoInterfaces().blocks) ==
            [Interface(DLT_EN10MB, 1_000_000), Interface(DLT_LINUX_SLL, 1_000_000)]
  {
    hide Encodable;
    TwoInterfacesEncodable();
    var bs := TwoInterfaces().blocks;
    var three, two, one := [bs[1], bs[2], bs[3]], [bs[2], bs[3]], [bs[3]];
    assert bs == [bs[0]] + three && three == [bs[1]] + two && two == [bs[2]] + one && one == [bs[3]] + [];
    InterfacesStep(bs[0], three);
    InterfacesStep(bs[1], two);
    InterfacesStep(bs[2], one);
    InterfacesStep(bs[3], []);
    DeclaredStep(bs[3], [], 2);
    DeclaredStep(bs[2], one, 1);
    DeclaredStep(bs[1], two, 1);
    DeclaredStep(bs[0], three, 0);
  }

  /** After the first packet of a file that begins with an interface and its packet, one interface is
      registered. */
  lemma OneInterfaceAfterOnePacket(f: NgFile)
    requires ValidFile(f) && 2 <= |f.blocks|
    requires f.blocks[0].InterfaceBlock? && f.blocks[1].PacketBlock?
    ensures var c := CaptureOf(f); After(c, Start(c), 1).count == 1
  {
    hide Standing, Encodable, Next, Interfaces, FrameOf, Encode;
    var c, bs, all := CaptureOf(f), AllBlocks(f), Interfaces(f.blocks);
    FileStanding(f, Start(c), []);
    var p1 := StandingStep(c, Start(c), bs, all, [], 0, f.order);
    assert bs[1..][0] == f.blocks[0] && bs[1..][1..][0] == f.blocks[1];
    var p2 := StandingStep(c, p1, bs[1..], all, [], 0, f.order);
    var p3 := StandingStep(c, p2, bs[1..][1..], all, [], 1, f.order);
    StandingRegistered(c, p3, bs[1..][1..][1..], all, [], 1, f.order);
    AfterOne(c, Start(c));
  }

  lemma AfterOne(c: Capture, p: Position)
    requires Next(c, p).AtPacket?
    ensures After(c, p, 1) == Next(c, p).next
  {
    hide Next;
    assert After(c, Next(c, p).next, 0) == Next(c, p).next;
  }

  /** A rewind in mid-pass that changes the replay: the second interface is then taken for the first. */
  lemma RewindInMidPassCanDiffer()
    ensures ValidFile(TwoInterfaces())
    ensures var c := CaptureOf(TwoInterfaces());
            Decode(c, Rewound(c, After(c, Start(c), 1))) != Decode(c, Start(c))
  {
    var f := TwoInterfaces();
    TwoInterfacesValid();
    OneInterfaceAfterOnePacket(f);
    RewindInMidPassExactly(f, 1, false);
    assert f.blocks[3].ifId == 1 && Interfaces(f.blocks)[1].linkType != Interfaces(f.blocks)[0].linkType;
  }
}
