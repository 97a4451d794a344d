/** From datagrams written to a capture file to the calls that the subscribed handlers receive. */
module EndToEnd {
  import opened Results
  import opened Bytes
  import opened Frames
  import opened Captures
  import opened ReplayModel
  import E = Encapsulation
  import Legacy = LegacyFormat
  import Ng = PcapNgTheorems
  import NgFormat = PcapNgFormat
  import RT = ReplayTheorems

  datatype Datagram = Datagram(link: E.Link, ip: E.Ip, srcPort: U16, dstPort: U16, checksum: U16,
                               payload: seq<Byte>, padding: seq<Byte>)

  predicate ValidDatagram(d: Datagram) {
    d.link.Valid() && d.ip.Valid() && |d.payload| + 8 < 0x1_0000
  }

  /** The frame on the wire. */
  function Wire(d: Datagram): seq<Byte>
    requires ValidDatagram(d)
  {
    E.Build(d.link, d.ip, E.UdpDatagram(d.srcPort, d.dstPort, d.checksum, d.payload), d.padding)
  }

  /** The captured frame `f` is the whole of the datagram `d`. */
  ghost predicate Carries(f: Frame, d: Datagram) {
    ValidDatagram(d) && f.data == Wire(d) && f.len == |f.data| && f.linkType == d.link.LinkType()
  }

  ghost predicate AllCarry(fs: seq<Frame>, ds: seq<Datagram>) {
    |fs| == |ds| && forall i :: 0 <= i < |fs| ==> Carries(fs[i], ds[i])
  }

  /** One call per datagram whose port has a handler when it is replayed, with its payload and its time of
      capture, in order. */
  function Calls(ds: seq<Datagram>, log: seq<Played>): seq<Delivery>
    requires |log| == |ds|
  {
    if ds == [] then []
    else
      var d, last := ds[|ds| - 1], log[|log| - 1];
      var sub := last.table[Swap16(d.dstPort)];
      Append(Calls(ds[..|ds| - 1], log[..|log| - 1]),
             if sub.handler == 0 then None
             else Some(Delivery(sub.handler, sub.context, d.payload, STATUS_OK, last.frame.ts)))
  }

  lemma RouteOfDatagram(fileLink: nat, table: Table, f: Frame, d: Datagram)
    requires Carries(f, d) && Proper(fileLink, f)
    ensures var sub := table[Swap16(d.dstPort)];
            Uncached(fileLink, table, f) ==
            if sub.handler == 0 then None else Some(Delivery(sub.handler, sub.context, d.payload, STATUS_OK, f.ts))
  {
    E.PayloadReachesItsPort(fileLink, table, COLD, f.ts, d.link, d.ip, d.srcPort, d.dstPort, d.checksum, d.payload,
                            d.padding);
  }

  lemma {:induction false} RouteOfDatagrams(fileLink: nat, log: seq<Played>, ds: seq<Datagram>)
    requires AllCarry(RT.FramesIn(log), ds)
    requires forall i :: 0 <= i < |log| ==> Proper(fileLink, log[i].frame)
    ensures RT.RouteLog(fileLink, log) == Calls(ds, log)
    decreases |log|
  {
    hide Uncached, Carries;
    if log != [] {
      var n := |log| - 1;
      assert RT.FramesIn(log[..n]) == RT.FramesIn(log)[..n];
      RouteOfDatagrams(fileLink, log[..n], ds[..n]);
      assert Carries(log[n].frame, ds[n]) by { assert RT.FramesIn(log)[n] == log[n].frame; }
      RouteOfDatagram(fileLink, log[n].table, log[n].frame, ds[n]);
    }
  }

  /** A receiver that stands at the beginning of its file, with whatever subscriptions it has. */
  ghost predicate Fresh(cfg: Config, rx: Receiver) {
    rx.pos == Start(cfg.capture) && !rx.finished && Coherent(rx.dispatcher.table, rx.dispatcher.hot)
  }

  /** Since `start` the receiver has played the frames `fs`, and called the handlers for the datagrams in them:
      once for each datagram whose port had a handler by then, in order, with its payload and its timestamp.
      The port table is the one from the start unless somebody subscribed. */
  ghost predicate Delivered(start: Receiver, rx: Receiver, steps: seq<WorldStep>, fs: seq<Frame>, ds: seq<Datagram>) {
    && start.played <= rx.played
    && var log := RT.Since(start, rx);
       && RT.FramesIn(log) == fs && |log| == |ds|
       && rx.dispatcher.out == start.dispatcher.out + Calls(ds, log)
       && (RT.NoSubscription(steps) ==> forall i :: 0 <= i < |log| ==> log[i].table == start.dispatcher.table)
  }

  lemma CaptureReachesHandlers(e: nat -> nat, cfg: Config, w: World, steps: seq<WorldStep>, ds: seq<Datagram>)
    requires Fresh(cfg, w.rx) && Safe(cfg.capture, w.rx.pos) && RT.Orderly(e, cfg, w, steps)
    requires AllCarry(Decode(cfg.capture, w.rx.pos), ds)
    requires forall f :: f in Decode(cfg.capture, w.rx.pos) ==> Proper(cfg.capture.linkType, f)
    requires Run(e, cfg, w, steps).rx.finished
    ensures Delivered(w.rx, Run(e, cfg, w, steps).rx, steps, Decode(cfg.capture, w.rx.pos), ds)
  {
    hide Run, Safe, Decode, Proper, Carries, RT.RouteLog, RT.Orderly, Calls;
    RT.HandlersSeeTheCapture(e, cfg, w, steps);
    var log := RT.Since(w.rx, Run(e, cfg, w, steps).rx);
    forall i | 0 <= i < |log| ensures Proper(cfg.capture.linkType, log[i].frame) {
      assert RT.FramesIn(log)[i] == log[i].frame;
    }
    RouteOfDatagrams(cfg.capture.linkType, log, ds);
    if RT.NoSubscription(steps) { RT.TableIsFixed(e, cfg, w, steps); }
  }

  /** Datagrams written to a legacy file and replayed in any mode, under any schedule that reaches the end,
      give exactly one call for each datagram whose port is subscribed, in order, with its payload and
      its timestamp. */
  lemma LegacyEndToEnd(e: nat -> nat, f: Legacy.LegacyFile, ds: seq<Datagram>, cfg: Config, w: World,
                       steps: seq<WorldStep>)
    requires Legacy.ValidFile(f) && !(f.order == Big && f.nano) && AllCarry(Legacy.FramesOf(f), ds)
    requires Open(Legacy.Encode(f)) == Ok(cfg.capture) && Fresh(cfg, w.rx) && RT.Orderly(e, cfg, w, steps)
    requires Run(e, cfg, w, steps).rx.finished
    ensures Delivered(w.rx, Run(e, cfg, w, steps).rx, steps, Legacy.FramesOf(f), ds)
  {
    hide Run, Safe, Decode, Carries, Legacy.Encode, Open, RT.Orderly, Delivered;
    Legacy.ReplaysIfRecognised(f);
    Legacy.OpenRecognisesExactly(f);
    var fs := Legacy.FramesOf(f);
    forall x | x in fs ensures Proper(cfg.capture.linkType, x) {
      var i :| 0 <= i < |fs| && fs[i] == x;
      CarriesWhole(fs[i], ds[i]);
    }
    CaptureReachesHandlers(e, cfg, w, steps, ds);
  }

  lemma CarriesWhole(f: Frame, d: Datagram)
    requires Carries(f, d)
    ensures f.len == |f.data|
  {
  }

  /** The same for a pcapng file, each datagram captured on the interface that its packet block names. */
  lemma PcapNgEndToEnd(e: nat -> nat, f: Ng.NgFile, ds: seq<Datagram>, cfg: Config, w: World, steps: seq<WorldStep>)
    requires Ng.ValidFile(f) && Ng.TimesFit(f.blocks, NgFormat.Interfaces(f.blocks))
    requires AllCarry(Ng.Packets(f.blocks, NgFormat.Interfaces(f.blocks)), ds)
    requires Open(Ng.Encode(f)) == Ok(cfg.capture) && Fresh(cfg, w.rx) && RT.Orderly(e, cfg, w, steps)
    requires Run(e, cfg, w, steps).rx.finished
    ensures Delivered(w.rx, Run(e, cfg, w, steps).rx, steps, Ng.Packets(f.blocks, NgFormat.Interfaces(f.blocks)), ds)
  {
    hide Run, Safe, Decode, Carries, Ng.Encode, Open, Ng.Packets, Ng.TimesFit, NgFormat.Interfaces;
    hide RT.Orderly, Delivered;
    Ng.PcapNgWholeRun(f);
    Ng.OpenRecognises(f);
    var fs := Ng.Packets(f.blocks, NgFormat.Interfaces(f.blocks));
    forall x | x in fs ensures Proper(cfg.capture.linkType, x) {
      var i :| 0 <= i < |fs| && fs[i] == x;
      CarriesWhole(fs[i], ds[i]);
    }
    CaptureReachesHandlers(e, cfg, w, steps, ds);
  }

  // ---------- Any number of passes ----------

  /** Any number of runs, each of them cut short wherever it is by a `rewind`. */
  function Passes(e: nat -> nat, cfg: Config, w: World, runs: seq<seq<WorldStep>>): World {
    if runs == [] then w
    else Rewind(cfg, Run(e, cfg, Passes(e, cfg, w, runs[..|runs| - 1]), runs[|runs| - 1]))
  }

  /** Every run reaches the end before it is rewound. */
  ghost predicate Complete(e: nat -> nat, cfg: Config, w: World, runs: seq<seq<WorldStep>>) {
    forall i :: 0 <= i < |runs| ==> Run(e, cfg, Passes(e, cfg, w, runs[..i]), runs[i]).rx.finished
  }

  predicate Quiet(runs: seq<seq<WorldStep>>) {
    forall i :: 0 <= i < |runs| ==> RT.NoSubscription(runs[i])
  }

  /** `s`, n times over. */
  function Times<T>(s: seq<T>, n: nat): seq<T> {
    if n == 0 then [] else Times(s, n - 1) + s
  }

  /** The receiver when n complete passes have been rewound: it has shown the capture n times, and if nobody
      subscribed it has made the calls of the capture n times. */
  ghost predicate PlayedThrough(cfg: Config, start: Receiver, rx: Receiver, n: nat, quiet: bool) {
    var link, table, all := cfg.capture.linkType, start.dispatcher.table, Decode(cfg.capture, start.pos);
    && rx.pos == Ng.PassStart(cfg.capture, n) && !rx.finished
    && RT.Shown(rx) == RT.Shown(start) + Times(all, n)
    && (quiet ==>
          && rx.dispatcher.table == table && Coherent(table, rx.dispatcher.hot)
          && rx.dispatcher.out == start.dispatcher.out + Times(RT.RouteAll(link, table, all), n))
  }

  /** The receiver later in the next pass: it has shown a prefix of the capture once more, all of it when it has
      finished; and if nobody subscribed it has made the calls of those frames. */
  ghost predicate PlaysOn(cfg: Config, start: Receiver, at: Receiver, rx: Receiver, quiet: bool) {
    var link, table, all := cfg.capture.linkType, start.dispatcher.table, Decode(cfg.capture, start.pos);
    && at.played <= rx.played
    && var frames := RT.FramesIn(RT.Since(at, rx));
       && frames <= all && (rx.finished ==> frames == all)
       && (quiet ==> rx.dispatcher.out == at.dispatcher.out + RT.RouteAll(link, table, frames))
  }

  /** Every pass over the file yields what the first does. */
  ghost predicate PassesAlike(c: Capture) {
    forall n: nat :: RT.PlaysAlike(c, Ng.PassStart(c, n), Start(c))
  }

  lemma PlayOn(e: nat -> nat, cfg: Config, start: Receiver, w: World, steps: seq<WorldStep>, n: nat, quiet: bool)
    requires start.pos == Start(cfg.capture) && PassesAlike(cfg.capture) && PlayedThrough(cfg, start, w.rx, n, quiet)
    requires quiet ==> RT.NoSubscription(steps)
    ensures PlaysOn(cfg, start, w.rx, Run(e, cfg, w, steps).rx, quiet)
  {
    hide Run, Safe, Decode, End, RT.RouteAll, RT.FramesIn, RT.Shown, Ng.PassStart, Times, Start;
    var rx := Run(e, cfg, w, steps).rx;
    assert RT.PlaysAlike(cfg.capture, w.rx.pos, start.pos);
    RT.ExactlyOnce(e, cfg, w, steps);
    RT.LogGrows(e, cfg, w, steps);
    RT.ShownSince(w.rx, rx);
    RT.CommonPrefix(RT.Shown(w.rx), RT.FramesIn(RT.Since(w.rx, rx)), Decode(cfg.capture, w.rx.pos));
    if quiet { RT.CallsByOneTable(e, cfg, w, steps); }
  }

  /** One more complete pass. */
  lemma PassThrough(e: nat -> nat, cfg: Config, start: Receiver, w: World, steps: seq<WorldStep>, n: nat, quiet: bool)
    requires start.pos == Start(cfg.capture) && PassesAlike(cfg.capture) && PlayedThrough(cfg, start, w.rx, n, quiet)
    requires Run(e, cfg, w, steps).rx.finished && (quiet ==> RT.NoSubscription(steps))
    ensures PlayedThrough(cfg, start, Rewind(cfg, Run(e, cfg, w, steps)).rx, n + 1, quiet)
  {
    hide Run, Safe, Decode, End, RT.RouteAll, RT.FramesIn, RT.Shown, Start;
    var w1, all := Run(e, cfg, w, steps), Decode(cfg.capture, start.pos);
    assert RT.PlaysAlike(cfg.capture, w.rx.pos, start.pos);
    PlayOn(e, cfg, start, w, steps, n, quiet);
    RT.ShownSince(w.rx, w1.rx);
    RT.ShownDepends(Rewind(cfg, w1).rx, w1.rx);
    RT.FinishedStandsAtEnd(e, cfg, w, steps);
    assert RT.Shown(start) + Times(all, n) + all == RT.Shown(start) + Times(all, n + 1);
    if quiet {
      RT.CallsByOneTable(e, cfg, w, steps);
      var calls := RT.RouteAll(cfg.capture.linkType, start.dispatcher.table, all);
      assert start.dispatcher.out + Times(calls, n) + calls == start.dispatcher.out + Times(calls, n + 1);
    }
  }

  lemma {:induction false} PassesThrough(e: nat -> nat, cfg: Config, w: World, runs: seq<seq<WorldStep>>)
    requires Fresh(cfg, w.rx) && PassesAlike(cfg.capture) && Complete(e, cfg, w, runs)
    ensures PlayedThrough(cfg, w.rx, Passes(e, cfg, w, runs).rx, |runs|, Quiet(runs))
    decreases |runs|
  {
    hide Run, Safe, Decode, PassesAlike, PlayedThrough, RT.NoSubscription;
    if runs == [] {
      NothingPlayed(cfg, w.rx);
    } else {
      var n := |runs| - 1;
      forall i | 0 <= i < n ensures Run(e, cfg, Passes(e, cfg, w, runs[..n][..i]), runs[..n][i]).rx.finished {
        assert runs[..n][..i] == runs[..i];
      }
      PassesThrough(e, cfg, w, runs[..n]);
      var w1 := Passes(e, cfg, w, runs[..n]);
      assert Quiet(runs) ==> Quiet(runs[..n]);
      WeakerThrough(cfg, w.rx, w1.rx, n, Quiet(runs[..n]), Quiet(runs));
      PassThrough(e, cfg, w.rx, w1, runs[n], n, Quiet(runs));
    }
  }

  lemma NothingPlayed(cfg: Config, rx: Receiver)
    requires Fresh(cfg, rx)
    ensures PlayedThrough(cfg, rx, rx, 0, true)
  {
    hide Decode, RT.RouteAll;
    assert rx.dispatcher.out + [] == rx.dispatcher.out && RT.Shown(rx) + [] == RT.Shown(rx);
  }

  lemma WeakerThrough(cfg: Config, start: Receiver, rx: Receiver, n: nat, quiet: bool, quiet': bool)
    requires PlayedThrough(cfg, start, rx, n, quiet) && (quiet' ==> quiet)
    ensures PlayedThrough(cfg, start, rx, n, quiet')
  {
  }

  /** After any number of complete passes, and in the next. */
  lemma PlaysAgain(e: nat -> nat, cfg: Config, w: World, runs: seq<seq<WorldStep>>, steps: seq<WorldStep>)
    requires Fresh(cfg, w.rx) && PassesAlike(cfg.capture) && Complete(e, cfg, w, runs)
    ensures var w1, quiet := Passes(e, cfg, w, runs), Quiet(runs) && RT.NoSubscription(steps);
            && PlayedThrough(cfg, w.rx, w1.rx, |runs|, quiet)
            && PlaysOn(cfg, w.rx, w1.rx, Run(e, cfg, w1, steps).rx, quiet)
  {
    hide Run, Passes, Complete, PassesAlike, PlayedThrough, PlaysOn, RT.NoSubscription;
    var w1, quiet := Passes(e, cfg, w, runs), Quiet(runs) && RT.NoSubscription(steps);
    PassesThrough(e, cfg, w, runs);
    WeakerThrough(cfg, w.rx, w1.rx, |runs|, Quiet(runs), quiet);
    PlayOn(e, cfg, w.rx, w1, steps, |runs|, quiet);
  }

  /** However often a pcapng replay is run to the end and rewound, every pass plays the capture again, packet for
      packet and with the same times, although `rewind` resets neither the interface counter nor the interface
      table; and unless somebody subscribes meanwhile, every pass calls the handlers as the first did. */
  lemma PcapNgPlaysAgain(e: nat -> nat, f: Ng.NgFile, cfg: Config, w: World, runs: seq<seq<WorldStep>>,
                         steps: seq<WorldStep>)
    requires Ng.ValidFile(f) && cfg.capture == Ng.CaptureOf(f) && Fresh(cfg, w.rx) && Complete(e, cfg, w, runs)
    ensures var w1, quiet := Passes(e, cfg, w, runs), Quiet(runs) && RT.NoSubscription(steps);
            && PlayedThrough(cfg, w.rx, w1.rx, |runs|, quiet)
            && PlaysOn(cfg, w.rx, w1.rx, Run(e, cfg, w1, steps).rx, quiet)
  {
    hide Run, Passes, Safe, Decode, Ng.Encode, Ng.PassStart, PlayedThrough, PlaysOn, Complete;
    forall n: nat ensures RT.PlaysAlike(cfg.capture, Ng.PassStart(cfg.capture, n), Start(cfg.capture)) {
      Ng.EveryPassIsTheFirst(f, n);
    }
    PlaysAgain(e, cfg, w, runs, steps);
  }

  /** The same for a legacy file. */
  lemma LegacyPlaysAgain(e: nat -> nat, cfg: Config, w: World, runs: seq<seq<WorldStep>>, steps: seq<WorldStep>)
    requires !cfg.capture.isPcapNg && Safe(cfg.capture, Start(cfg.capture)) && Fresh(cfg, w.rx)
    requires Complete(e, cfg, w, runs)
    ensures var w1, quiet := Passes(e, cfg, w, runs), Quiet(runs) && RT.NoSubscription(steps);
            && PlayedThrough(cfg, w.rx, w1.rx, |runs|, quiet)
            && PlaysOn(cfg, w.rx, w1.rx, Run(e, cfg, w1, steps).rx, quiet)
  {
    hide Run, Passes, Safe, Decode, End, PlayedThrough, PlaysOn, Complete;
    forall n: nat ensures RT.PlaysAlike(cfg.capture, Ng.PassStart(cfg.capture, n), Start(cfg.capture)) {
      LegacyIgnoresInterfaces(cfg.capture, Ng.PassStart(cfg.capture, n), Start(cfg.capture));
    }
    PlaysAgain(e, cfg, w, runs, steps);
  }

  // ---------- Rewinding at any time ----------

  /** The cursor is on a block boundary of the file, in a pass before which `prior` was registered. */
  ghost predicate Within(f: Ng.NgFile, prior: seq<Interface>, rx: Receiver)
    requires Ng.ValidFile(f)
  {
    exists bs: seq<NgFormat.Block>, seen: nat ::
      NgFormat.Standing(Ng.CaptureOf(f), rx.pos, bs, NgFormat.Interfaces(f.blocks), prior, seen, f.order)
  }

  lemma WithinStep(e: nat -> nat, f: Ng.NgFile, prior: seq<Interface>, cfg: Config, w: World)
    requires Ng.ValidFile(f) && cfg.capture == Ng.CaptureOf(f) && Within(f, prior, w.rx)
    ensures Within(f, prior, InternalStep(e, cfg, w).world.rx)
  {
    hide InternalStep, Next, NgFormat.Standing, NgFormat.Interfaces, Ng.Encode;
    var c, all := cfg.capture, NgFormat.Interfaces(f.blocks);
    var bs: seq<NgFormat.Block>, seen: nat :| NgFormat.Standing(c, w.rx.pos, bs, all, prior, seen, f.order);
    var rest, k := NgFormat.NextStanding(c, w.rx.pos, bs, all, prior, seen, f.order);
    RT.StepShape(e, cfg, w);
  }

  lemma RunStaysWithin(e: nat -> nat, f: Ng.NgFile, prior: seq<Interface>, cfg: Config, w: World,
                       steps: seq<WorldStep>)
    requires Ng.ValidFile(f) && cfg.capture == Ng.CaptureOf(f) && Within(f, prior, w.rx)
    ensures Within(f, prior, Run(e, cfg, w, steps).rx)
  {
    hide InternalStep, Run, NgFormat.Standing, Ng.ValidFile, Ng.Encode;
    var P := (rx: Receiver) requires Ng.ValidFile(f) => Within(f, prior, rx);
    assert RT.Stable(e, cfg, P) by {
      forall v: World | P(v.rx) ensures P(InternalStep(e, cfg, v).world.rx) {
        WithinStep(e, f, prior, cfg, v);
      }
    }
    RT.RunKeeps(e, cfg, w, steps, P);
  }

  lemma {:induction false} PassesRegistered(e: nat -> nat, f: Ng.NgFile, cfg: Config, w: World,
                                            runs: seq<seq<WorldStep>>)
      returns (prior: seq<Interface>)
    requires Ng.ValidFile(f) && cfg.capture == Ng.CaptureOf(f) && w.rx.pos == Start(cfg.capture)
    ensures var p := Passes(e, cfg, w, runs).rx.pos;
            p.cursor == 0 && NgFormat.Usable(prior) && NgFormat.Registered(p, NgFormat.Interfaces(f.blocks), prior, 0)
    decreases |runs|
  {
    hide Run, NgFormat.Standing, NgFormat.Interfaces, Ng.Encode, NgFormat.Encodable;
    if runs == [] {
      return [];
    }
    var c, all := cfg.capture, NgFormat.Interfaces(f.blocks);
    var before := PassesRegistered(e, f, cfg, w, runs[..|runs| - 1]);
    var w1 := Passes(e, cfg, w, runs[..|runs| - 1]);
    var steps := runs[|runs| - 1];
    Ng.FileStanding(f, w1.rx.pos, before);
    assert Within(f, before, w1.rx);
    RunStaysWithin(e, f, before, cfg, w1, steps);
    var q := Run(e, cfg, w1, steps).rx.pos;
    var bs: seq<NgFormat.Block>, seen: nat :| NgFormat.Standing(c, q, bs, all, before, seen, f.order);
    Ng.StandingRegistered(c, q, bs, all, before, seen, f.order);
    Ng.RewoundRegistered(c, q, all, before, seen);
    Ng.FileIds(f);
    prior := before + all[..seen];
  }

  /** Rewinding a pcapng replay at any time: whatever ran and however often it was rewound, in mid-pass or at
      the end, the next pass meets nothing undefined, and it yields the capture again if and only if the
      interfaces registered meanwhile shift no packet to a different one. */
  lemma RewoundAtAnyTime(e: nat -> nat, f: Ng.NgFile, cfg: Config, w: World, runs: seq<seq<WorldStep>>)
    requires Ng.ValidFile(f) && cfg.capture == Ng.CaptureOf(f) && w.rx.pos == Start(cfg.capture)
    ensures var c, p := cfg.capture, Passes(e, cfg, w, runs).rx.pos;
            && Safe(c, p) && Ng.Known(p) && NgFormat.Usable(NgFormat.Interfaces(f.blocks))
            && (Decode(c, p) == Decode(c, Start(c)) <==>
                Ng.Unshifted(f.blocks, NgFormat.Interfaces(f.blocks), p))
  {
    hide Passes, Safe, Decode, Ng.Encode, NgFormat.Interfaces, Ng.Unshifted;
    var prior := PassesRegistered(e, f, cfg, w, runs);
    var p := Passes(e, cfg, w, runs).rx.pos;
    Ng.FileIds(f);
    Ng.RegisteredKnown(p, NgFormat.Interfaces(f.blocks), prior, 0);
    Ng.PassAlikeExactly(f, p);
  }

  /** In particular, a rewind at any moment of the first pass, in which `k` interfaces were registered, is
      harmless just when the shift by k is. */
  lemma RewoundInFirstPass(e: nat -> nat, f: Ng.NgFile, cfg: Config, w: World, steps: seq<WorldStep>)
    requires Ng.ValidFile(f) && cfg.capture == Ng.CaptureOf(f) && w.rx.pos == Start(cfg.capture)
    ensures var c, p := cfg.capture, Run(e, cfg, w, steps).rx.pos;
            && NgFormat.Usable(NgFormat.Interfaces(f.blocks)) && Safe(c, Rewound(c, p))
            && (Decode(c, Rewound(c, p)) == Decode(c, Start(c)) <==>
                Ng.ShiftHarmless(f.blocks, NgFormat.Interfaces(f.blocks), p.count))
  {
    hide Run, Safe, Decode, Ng.Encode, NgFormat.Interfaces, Ng.ShiftHarmless, NgFormat.Standing;
    hide NgFormat.Encodable;
    var c, all := cfg.capture, NgFormat.Interfaces(f.blocks);
    Ng.FileStanding(f, w.rx.pos, []);
    assert Within(f, [], w.rx);
    RunStaysWithin(e, f, [], cfg, w, steps);
    var p := Run(e, cfg, w, steps).rx.pos;
    var bs: seq<NgFormat.Block>, seen: nat :| NgFormat.Standing(c, p, bs, all, [], seen, f.order);
    Ng.StandingRegistered(c, p, bs, all, [], seen, f.order);
    Ng.FirstPassShift(f, p, seen);
  }
}
