/** What a replay promises under every schedule of its continuations, of manual steps and of whatever else
    the event loop's clients do. */
module ReplayTheorems {
  import opened Results
  import opened Bytes
  import opened TimerQueue
  import opened Frames
  import opened Captures
  import opened ReplayModel
  import L = LoopModel
  import LT = LoopTheorems

  // ---------- Invariants of the system ----------

  /** `P` survives a step of the receiver made at any time. */
  ghost predicate StableOn(e: nat -> nat, cfg: Config, P: World -> bool) {
    forall w: World :: P(w) ==> P(InternalStep(e, cfg, w).world)
  }

  /** `P` survives whatever happens to the loop, as long as its clock does not go back. */
  ghost predicate LoopInsensitive(P: World -> bool) {
    forall now: L.State, later: L.State, rx: Receiver ::
      P(World(now, rx)) && now.clock <= later.clock ==> P(World(later, rx))
  }

  /** `P` survives any change of the subscriptions, or there is none. */
  ghost predicate SubscriptionInsensitive(P: World -> bool, steps: seq<WorldStep>) {
    || (forall w: World, d: Dispatcher :: P(w) ==> P(w.(rx := w.rx.(dispatcher := d))))
    || NoSubscription(steps)
  }

  predicate NoSubscription(steps: seq<WorldStep>) {
    forall i :: 0 <= i < |steps| ==> !steps[i].SubscribeStep?
  }

  lemma {:induction false} StepUpToKeeps(e: nat -> nat, cfg: Config, w: World, n: nat, P: World -> bool)
    requires StableOn(e, cfg, P) && P(w)
    ensures P(StepUpTo(e, cfg, w, n).world)
    decreases n
  {
    hide InternalStep;
    if n > 0 {
      var r := InternalStep(e, cfg, w);
      if r.more { StepUpToKeeps(e, cfg, r.world, n - 1, P); }
    }
  }

  lemma LoopStepKeeps(e: nat -> nat, w: World, step: L.Step, P: World -> bool)
    requires LoopInsensitive(P) && P(w)
    ensures P(w.(loop := L.Apply(e, w.loop, step)))
  {
    hide L.Apply;
    LT.ClockAdvances(e, w.loop, step);
    assert P(World(w.loop, w.rx));
  }

  lemma CallKeeps(e: nat -> nat, w: World, a: L.Action, P: World -> bool)
    requires LoopInsensitive(P) && P(w)
    ensures P(w.(loop := L.Perform(e, w.loop, a)))
  {
    hide L.Perform, LoopInsensitive;
    LoopStepKeeps(e, w, L.Call(a), P);
  }

  lemma FloodKeeps(e: nat -> nat, cfg: Config, w: World, P: World -> bool)
    requires StableOn(e, cfg, P) && LoopInsensitive(P) && P(w)
    ensures P(ProcessBatchFlood(e, cfg, w))
  {
    hide StableOn, LoopInsensitive, StepUpTo, L.Perform;
    StepUpToKeeps(e, cfg, w, FLOOD_LIMIT, P);
    CallKeeps(e, StepUpTo(e, cfg, w, FLOOD_LIMIT).world, L.RunInLoop(ReplayFlood), P);
  }

  lemma BatchKeeps(e: nat -> nat, cfg: Config, w: World, P: World -> bool)
    requires StableOn(e, cfg, P) && LoopInsensitive(P) && P(w)
    ensures P(ProcessBatch(e, cfg, w))
  {
    hide StableOn, LoopInsensitive, StepUpTo, ProcessBatchFlood, L.Perform;
    FloodKeeps(e, cfg, w, P);
    var flooded := if cfg.mode == Flood then ProcessBatchFlood(e, cfg, w) else w;
    StepUpToKeeps(e, cfg, flooded, StopLimit(cfg), P);
    var after := StepUpTo(e, cfg, flooded, StopLimit(cfg)).world;
    CallKeeps(e, after, L.RunInLoop(ReplayBatch), P);
    CallKeeps(e, after, L.RunAfter(0, ReplayBatch), P);
  }

  lemma ApplyKeepsOn(e: nat -> nat, cfg: Config, w: World, step: WorldStep, P: World -> bool)
    requires StableOn(e, cfg, P) && LoopInsensitive(P) && SubscriptionInsensitive(P, [step]) && P(w)
    ensures P(Apply(e, cfg, w, step))
  {
    hide ProcessBatch, ProcessBatchFlood, InternalStep, DispatchStep, L.Apply, LoopInsensitive;
    if step.LoopStep? {
      LoopStepKeeps(e, w, step.step, P);
      var w' := w.(loop := L.Apply(e, w.loop, step.step));
      BatchKeeps(e, cfg, w', P);
      FloodKeeps(e, cfg, w', P);
    } else if step.SubscribeStep? {
      assert [step][0] == step;
    }
  }

  lemma {:induction false} RunKeepsOn(e: nat -> nat, cfg: Config, w: World, steps: seq<WorldStep>, P: World -> bool)
    requires StableOn(e, cfg, P) && LoopInsensitive(P) && SubscriptionInsensitive(P, steps) && P(w)
    ensures P(Run(e, cfg, w, steps))
    decreases |steps|
  {
    hide Apply, StableOn, LoopInsensitive;
    if steps != [] {
      assert SubscriptionInsensitive(P, [steps[|steps| - 1]]);
      RunKeepsOn(e, cfg, w, steps[..|steps| - 1], P);
      ApplyKeepsOn(e, cfg, Run(e, cfg, w, steps[..|steps| - 1]), steps[|steps| - 1], P);
    }
  }

  // ---------- Invariants of the receiver ----------

  ghost predicate Stable(e: nat -> nat, cfg: Config, P: Receiver -> bool) {
    forall w: World :: P(w.rx) ==> P(InternalStep(e, cfg, w).world.rx)
  }

  ghost predicate Insensitive(P: Receiver -> bool, steps: seq<WorldStep>) {
    || (forall rx: Receiver, d: Dispatcher :: P(rx) ==> P(rx.(dispatcher := d)))
    || NoSubscription(steps)
  }

  lemma ApplyKeeps(e: nat -> nat, cfg: Config, w: World, step: WorldStep, P: Receiver -> bool)
    requires Stable(e, cfg, P) && Insensitive(P, [step]) && P(w.rx)
    ensures P(Apply(e, cfg, w, step).rx)
  {
    hide Apply, InternalStep;
    ApplyKeepsOn(e, cfg, w, step, (v: World) => P(v.rx));
  }

  lemma RunKeeps(e: nat -> nat, cfg: Config, w: World, steps: seq<WorldStep>, P: Receiver -> bool)
    requires Stable(e, cfg, P) && Insensitive(P, steps) && P(w.rx)
    ensures P(Run(e, cfg, w, steps).rx)
  {
    hide Run, InternalStep;
    RunKeepsOn(e, cfg, w, steps, (v: World) => P(v.rx));
  }

  // ---------- Counting steps ----------

  /** The callback or task that a step invokes. */
  function InvokedBy(w: World, step: WorldStep): Callback {
    if step.LoopStep? then Invoked(w.loop, step.step) else Empty
  }

  /** How many steps of a run invoked `cb`. */
  function Invocations(e: nat -> nat, cfg: Config, w: World, steps: seq<WorldStep>, cb: Callback): nat {
    if steps == [] then 0
    else
      var init, last := steps[..|steps| - 1], steps[|steps| - 1];
      Invocations(e, cfg, w, init, cb) + if InvokedBy(Run(e, cfg, w, init), last) == cb then 1 else 0
  }

  function ManualSteps(steps: seq<WorldStep>): nat {
    if steps == [] then 0
    else ManualSteps(steps[..|steps| - 1]) + if steps[|steps| - 1].ManualStep? then 1 else 0
  }

  // ---------- Exactly once ----------

  function FramesIn(log: seq<Played>): seq<Frame> {
    seq(|log|, i requires 0 <= i < |log| => log[i].frame)
  }

  /** The frames played so far. */
  function Shown(rx: Receiver): seq<Frame> {
    FramesIn(rx.played)
  }

  /** What was played and what is left are together the packets `all`; the end was reported only at the end. */
  ghost predicate Conserves(c: Capture, all: seq<Frame>, rx: Receiver) {
    && Safe(c, rx.pos)
    && Shown(rx) + Decode(c, rx.pos) == all
    && (rx.finished ==> Next(c, rx.pos) == AtEnd(rx.pos))
  }

  /** The outcome of one step: it plays the next packet, or leaves what is to come as it was. */
  lemma StepOutcome(e: nat -> nat, cfg: Config, w: World)
    requires Safe(cfg.capture, w.rx.pos)
    ensures var c, r, left := cfg.capture, InternalStep(e, cfg, w), Decode(cfg.capture, w.rx.pos);
            var rx := r.world.rx;
            && Safe(c, rx.pos)
            && (r.more ==> left != [] && Shown(rx) == Shown(w.rx) + [left[0]] && Decode(c, rx.pos) == left[1..])
            && (!r.more ==> rx.played == w.rx.played && Decode(c, rx.pos) == left)
            && (!r.more ==> rx.pos == Next(c, w.rx.pos).pos)
            && (rx.finished <==> w.rx.finished || left == [])
  {
    var c, p := cfg.capture, w.rx.pos;
    SafeMeansNoFault(c, p);
    LookAgain(c, p);
    NextDecides(c, p);
    SameNextSameDecode(c, p, Next(c, p).pos);
    if Next(c, p).AtPacket? {
      DecodePacket(c, p);
    }
    StepShape(e, cfg, w);
  }

  lemma NextDecides(c: Capture, p: Position)
    ensures Decode(c, p) == [] <==> !Next(c, p).AtPacket?
  {
  }

  /** The receiver after a step, by what the reader met. */
  lemma StepShape(e: nat -> nat, cfg: Config, w: World)
    ensures var s, r := Next(cfg.capture, w.rx.pos), InternalStep(e, cfg, w);
            var rx := r.world.rx;
            match s
            case Fault => !r.more && rx == w.rx
            case AtEnd(pos) => !r.more && rx.pos == pos && rx.finished && rx.played == w.rx.played
            case AtPacket(pos, frame, next) =>
              && rx.finished == w.rx.finished
              && (r.more ==> rx.pos == next && Shown(rx) == Shown(w.rx) + [frame])
              && (!r.more ==> rx.pos == pos && rx.played == w.rx.played)
  {
    hide DispatchStep, L.Perform, L.Tick, Next;
  }

  lemma ConservesStable(e: nat -> nat, cfg: Config, all: seq<Frame>)
    ensures Stable(e, cfg, rx => Conserves(cfg.capture, all, rx))
  {
    hide InternalStep, Decode, Safe, Next;
    var c := cfg.capture;
    forall w: World | Conserves(c, all, w.rx) ensures Conserves(c, all, InternalStep(e, cfg, w).world.rx) {
      StepOutcome(e, cfg, w);
      SafeMeansNoFault(c, w.rx.pos);
      LookAgain(c, w.rx.pos);
      NextDecides(c, w.rx.pos);
      var left := Decode(c, w.rx.pos);
      assert left != [] ==> left == [left[0]] + left[1..];
    }
  }

  /** Exactly once under any schedule: whatever continuations, manual steps, timers, tasks and
      subscriptions are interleaved, the packets played are those of the sequential decoding, in order and
      without gap or repetition; and when the end is reported, all of them. */
  lemma ExactlyOnce(e: nat -> nat, cfg: Config, w: World, steps: seq<WorldStep>)
    requires Safe(cfg.capture, w.rx.pos) && !w.rx.finished
    ensures var c, rx := cfg.capture, Run(e, cfg, w, steps).rx;
            var all := Shown(w.rx) + Decode(c, w.rx.pos);
            && Safe(c, rx.pos) && Shown(rx) + Decode(c, rx.pos) == all && Shown(rx) <= all
            && (rx.finished ==> Shown(rx) == all)
  {
    hide Run, Safe, Decode, Stable;
    var c, all := cfg.capture, Shown(w.rx) + Decode(cfg.capture, w.rx.pos);
    ConservesStable(e, cfg, all);
    RunKeeps(e, cfg, w, steps, rx => Conserves(c, all, rx));
    NextDecides(c, Run(e, cfg, w, steps).rx.pos);
  }

  /** A finished replay stays finished, and plays nothing more, until it is rewound. */
  lemma FinishedIsAbsorbing(e: nat -> nat, cfg: Config, w: World, steps: seq<WorldStep>)
    requires w.rx.finished && Next(cfg.capture, w.rx.pos) == AtEnd(w.rx.pos)
    ensures var rx := Run(e, cfg, w, steps).rx;
            rx.finished && rx.pos == w.rx.pos && rx.played == w.rx.played
  {
    hide Run, Next;
    var P := (rx: Receiver) => rx.finished && rx.pos == w.rx.pos && rx.played == w.rx.played;
    forall v: World | P(v.rx) ensures P(InternalStep(e, cfg, v).world.rx) {
      StepShape(e, cfg, v);
    }
    RunKeeps(e, cfg, w, steps, P);
  }

  /** Every successful step moves the cursor: by at least 16 bytes in a legacy file, at least 8 in pcapng. */
  lemma StepAdvances(e: nat -> nat, cfg: Config, w: World)
    requires InternalStep(e, cfg, w).more
    ensures var at := InternalStep(e, cfg, w).world.rx.pos.cursor;
            w.rx.pos.cursor + (if cfg.capture.isPcapNg then 8 else 16) <= at <= |cfg.capture.file|
  {
    hide Next;
    PacketAdvances(cfg.capture, w.rx.pos);
    StepShape(e, cfg, w);
  }

  lemma UnfinishedBefore(e: nat -> nat, cfg: Config, w: World, step: WorldStep)
    requires !Apply(e, cfg, w, step).rx.finished
    ensures !w.rx.finished
  {
    hide Apply, InternalStep;
    if w.rx.finished {
      var P := (rx: Receiver) => rx.finished;
      forall v: World | P(v.rx) ensures P(InternalStep(e, cfg, v).world.rx) {
        StepShape(e, cfg, v);
      }
      ApplyKeeps(e, cfg, w, step, P);
    }
  }

  // ---------- Replay by hand ----------

  /** A step that is not timed plays the packet it finds, at once and without touching the loop. */
  lemma UntimedStep(e: nat -> nat, cfg: Config, w: World)
    requires cfg.mode != Timed
    ensures var r := InternalStep(e, cfg, w);
            r.world.loop == w.loop && (r.more <==> Next(cfg.capture, w.rx.pos).AtPacket?)
  {
    hide DispatchStep, Next;
  }

  /** Replay by hand, in step mode: whatever else the loop and the subscribers do, n manual steps play the first n
      packets that are left, and the end is reported by the step after the last. */
  lemma {:induction false} ReplayByHand(e: nat -> nat, cfg: Config, w: World, steps: seq<WorldStep>)
    requires cfg.mode == Manual && Safe(cfg.capture, w.rx.pos) && !w.rx.finished
    requires Invocations(e, cfg, w, steps, ReplayBatch) == Invocations(e, cfg, w, steps, ReplayFlood) == 0
    ensures var rx, left, n := Run(e, cfg, w, steps).rx, Decode(cfg.capture, w.rx.pos), ManualSteps(steps);
            && Safe(cfg.capture, rx.pos)
            && Shown(rx) == Shown(w.rx) + left[..if n < |left| then n else |left|]
            && Decode(cfg.capture, rx.pos) == left[if n < |left| then n else |left|..]
            && (rx.finished <==> |left| < n)
    decreases |steps|
  {
    hide Safe, Decode, Next, InternalStep, L.Apply, Invoked, Shown, ProcessBatch, ProcessBatchFlood;
    var left := Decode(cfg.capture, w.rx.pos);
    if steps == [] {
      assert Shown(w.rx) + left[..0] == Shown(w.rx) && left[0..] == left;
    } else {
      var init, last := steps[..|steps| - 1], steps[|steps| - 1];
      ReplayByHand(e, cfg, w, init);
      var w1, w2 := Run(e, cfg, w, init), Run(e, cfg, w, steps);
      if last.ManualStep? {
        UntimedStep(e, cfg, w1);
        StepOutcome(e, cfg, w1);
        NextDecides(cfg.capture, w1.rx.pos);
        if |left| > ManualSteps(init) {
          var n := ManualSteps(init);
          assert left[..n] + [left[n]] == left[..n + 1];
          assert Shown(w.rx) + left[..n] + [left[n]] == Shown(w.rx) + left[..n + 1];
        } else {
          ShownDepends(w1.rx, w2.rx);
        }
      } else {
        assert w2.rx.played == w1.rx.played && w2.rx.pos == w1.rx.pos && w2.rx.finished == w1.rx.finished;
        ShownDepends(w1.rx, w2.rx);
      }
    }
  }

  // ---------- Rewinding ----------

  ghost predicate EndsAt(c: Capture, end: Position, rx: Receiver) {
    Safe(c, rx.pos) && End(c, rx.pos) == end
  }

  lemma EndStable(e: nat -> nat, cfg: Config, end: Position)
    ensures Stable(e, cfg, rx => EndsAt(cfg.capture, end, rx))
  {
    hide InternalStep, Decode, Safe, Next, End, After;
    var c := cfg.capture;
    forall w: World | EndsAt(c, end, w.rx) ensures EndsAt(c, end, InternalStep(e, cfg, w).world.rx) {
      StepOutcome(e, cfg, w);
      SafeMeansNoFault(c, w.rx.pos);
      LookAgain(c, w.rx.pos);
      SameNextSameDecode(c, w.rx.pos, Next(c, w.rx.pos).pos);
      StepShape(e, cfg, w);
      if Next(c, w.rx.pos).AtPacket? { DecodePacket(c, w.rx.pos); }
    }
  }

  lemma EndedAtEnd(c: Capture, p: Position)
    requires Next(c, p) == AtEnd(p)
    ensures End(c, p) == p
  {
  }

  /** A replay that has finished stands where reading the file to its end leads. */
  lemma FinishedStandsAtEnd(e: nat -> nat, cfg: Config, w: World, steps: seq<WorldStep>)
    requires Safe(cfg.capture, w.rx.pos) && !w.rx.finished && Run(e, cfg, w, steps).rx.finished
    ensures Run(e, cfg, w, steps).rx.pos == End(cfg.capture, w.rx.pos)
  {
    hide Run, Safe, Decode, Stable, End, Next;
    var c, all, end := cfg.capture, Shown(w.rx) + Decode(cfg.capture, w.rx.pos), End(cfg.capture, w.rx.pos);
    ConservesStable(e, cfg, all);
    RunKeeps(e, cfg, w, steps, rx => Conserves(c, all, rx));
    EndStable(e, cfg, end);
    RunKeeps(e, cfg, w, steps, rx => EndsAt(c, end, rx));
    EndedAtEnd(c, Run(e, cfg, w, steps).rx.pos);
  }

  /** `rewind`, exactly: the cursor is back at the first block or behind the legacy header, the end is no longer
      reported, and the replay clock is to be set anew; interfaces, subscriptions, cache and loop are as they were. */
  lemma RewindIsExact(cfg: Config, w: World)
    ensures var w' := Rewind(cfg, w);
            && w'.loop == w.loop && w'.rx.dispatcher == w.rx.dispatcher && w'.rx.played == w.rx.played
            && w'.rx.pos == Position(if cfg.capture.isPcapNg then 0 else 24, w.rx.pos.interfaces, w.rx.pos.count)
            && !w'.rx.finished && w'.rx.firstPacket
  {
  }

  /** After the end the receiver's continuations do nothing, and none schedules another. */
  lemma ContinuationsDieOut(e: nat -> nat, cfg: Config, w: World, cb: Callback)
    requires w.rx.finished && Next(cfg.capture, w.rx.pos) == AtEnd(w.rx.pos)
    ensures RunCallback(e, cfg, w, cb) == w
  {
    hide Next;
  }

  /** Replay after `rewind`: if a pass over the rewound file yields what the first did, then after a
      finished replay has been rewound, any further schedule plays a prefix of the capture again, and all
      of it by the time it reports the end again. */
  lemma RewoundPlaysAgain(e: nat -> nat, cfg: Config, w: World, steps: seq<WorldStep>, again: seq<WorldStep>)
    requires Safe(cfg.capture, w.rx.pos) && !w.rx.finished && Run(e, cfg, w, steps).rx.finished
    requires PlaysAlike(cfg.capture, Rewound(cfg.capture, End(cfg.capture, w.rx.pos)), w.rx.pos)
    ensures var before, all := Shown(w.rx), Decode(cfg.capture, w.rx.pos);
            var rx := Run(e, cfg, Rewind(cfg, Run(e, cfg, w, steps)), again).rx;
            before + all <= Shown(rx) <= before + all + all && (rx.finished ==> Shown(rx) == before + all + all)
  {
    hide Run, Safe, Decode, End, Shown;
    var w1 := Run(e, cfg, w, steps);
    ExactlyOnce(e, cfg, w, steps);
    FinishedStandsAtEnd(e, cfg, w, steps);
    var w2 := Rewind(cfg, w1);
    ShownDepends(w2.rx, w1.rx);
    ExactlyOnce(e, cfg, w2, again);
    LogGrows(e, cfg, w2, again);
    ShownSince(w2.rx, Run(e, cfg, w2, again).rx);
  }

  /** Reading from `p` is safe, and yields what reading from `q` does. */
  ghost predicate PlaysAlike(c: Capture, p: Position, q: Position) {
    Safe(c, p) && Decode(c, p) == Decode(c, q)
  }

  /** The log only grows. */
  lemma LogGrows(e: nat -> nat, cfg: Config, w: World, steps: seq<WorldStep>)
    ensures w.rx.played <= Run(e, cfg, w, steps).rx.played
  {
    hide Run, InternalStep;
    var P := (rx: Receiver) => w.rx.played <= rx.played;
    forall v: World | P(v.rx) ensures P(InternalStep(e, cfg, v).world.rx) {
      PlayedStep(e, cfg, v);
    }
    RunKeeps(e, cfg, w, steps, P);
  }

  // ---------- What the handlers see ----------

  /** The calls that a list of frames comes to with one table and no cache. */
  function RouteAll(fileLink: nat, table: Table, fs: seq<Frame>): seq<Delivery> {
    if fs == [] then [] else Append(RouteAll(fileLink, table, fs[..|fs| - 1]), Uncached(fileLink, table, fs[|fs| - 1]))
  }

  /** The calls that a log comes to without a cache, each frame looked up in the table of its moment. */
  function RouteLog(fileLink: nat, log: seq<Played>): seq<Delivery> {
    if log == [] then []
    else
      var last := log[|log| - 1];
      Append(RouteLog(fileLink, log[..|log| - 1]), Uncached(fileLink, last.table, last.frame))
  }

  lemma {:induction false} OneTable(fileLink: nat, table: Table, log: seq<Played>)
    requires forall i :: 0 <= i < |log| ==> log[i].table == table
    ensures RouteLog(fileLink, log) == RouteAll(fileLink, table, FramesIn(log))
    decreases |log|
  {
    hide Uncached;
    if log != [] {
      var init := log[..|log| - 1];
      OneTable(fileLink, table, init);
      assert FramesIn(log)[..|log| - 1] == FramesIn(init);
    }
  }

  /** The step does not give the cached port another handler or context, as subscribing it again would.
      A subscription to a port that has no handler yet never does. */
  predicate KeepsCache(d: Dispatcher, step: WorldStep) {
    step.SubscribeStep? && step.handler != 0 && d.hot.handler != 0 && d.hot.port == Swap16(step.port) ==>
      step.context == d.hot.context && step.handler == d.hot.handler
  }

  ghost predicate Orderly(e: nat -> nat, cfg: Config, w: World, steps: seq<WorldStep>) {
    forall i :: 0 <= i < |steps| ==> KeepsCache(Run(e, cfg, w, steps[..i]).rx.dispatcher, steps[i])
  }

  lemma NoSubscriptionIsOrderly(e: nat -> nat, cfg: Config, w: World, steps: seq<WorldStep>)
    requires NoSubscription(steps)
    ensures Orderly(e, cfg, w, steps)
  {
  }

  lemma NewPortKeepsCache(d: Dispatcher, step: WorldStep)
    requires Coherent(d.table, d.hot) && step.SubscribeStep? && d.table[Swap16(step.port)].handler == 0
    ensures KeepsCache(d, step)
  {
  }

  /** Since `start`, the calls made are those of the frames played, as if there were no cache. */
  ghost predicate Routed(fileLink: nat, start: Receiver, rx: Receiver) {
    && start.played <= rx.played && Coherent(rx.dispatcher.table, rx.dispatcher.hot)
    && rx.dispatcher.out == start.dispatcher.out + RouteLog(fileLink, rx.played[|start.played|..])
  }

  lemma PlayedStep(e: nat -> nat, cfg: Config, w: World)
    ensures var r := InternalStep(e, cfg, w);
            var s, d, rx := Next(cfg.capture, w.rx.pos), w.rx.dispatcher, r.world.rx;
            if r.more
            then
              && s.AtPacket? && rx.dispatcher == DispatchStep(cfg.capture.linkType, d, Parse(s.frame))
              && rx.played == w.rx.played + [rx.played[|rx.played| - 1]]
              && rx.played[|rx.played| - 1] == Played(s.frame, r.world.loop.clock, d.table)
            else rx.dispatcher == d && rx.played == w.rx.played
  {
    hide DispatchStep, L.Perform, L.Tick, Next;
  }

  lemma RoutedStep(e: nat -> nat, cfg: Config, start: Receiver, w: World)
    requires Routed(cfg.capture.linkType, start, w.rx)
    ensures Routed(cfg.capture.linkType, start, InternalStep(e, cfg, w).world.rx)
  {
    hide InternalStep, Next, ParseAndDispatch, Uncached;
    var link, r, n := cfg.capture.linkType, InternalStep(e, cfg, w), |start.played|;
    PlayedStep(e, cfg, w);
    if r.more {
      var log, last := w.rx.played[n..], r.world.rx.played[|w.rx.played|];
      CacheUnnoticed(link, w.rx.dispatcher.table, w.rx.dispatcher.hot, last.frame);
      assert r.world.rx.played[n..] == log + [last] && (log + [last])[..|log|] == log;
    }
  }

  lemma RoutedApply(e: nat -> nat, cfg: Config, start: Receiver, w: World, step: WorldStep)
    requires Routed(cfg.capture.linkType, start, w.rx) && KeepsCache(w.rx.dispatcher, step)
    ensures Routed(cfg.capture.linkType, start, Apply(e, cfg, w, step).rx)
  {
    hide InternalStep, ProcessBatch, ProcessBatchFlood, RouteLog;
    if !step.SubscribeStep? {
      var P := (rx: Receiver) => Routed(cfg.capture.linkType, start, rx);
      assert Stable(e, cfg, P) by {
        forall v: World | P(v.rx) ensures P(InternalStep(e, cfg, v).world.rx) {
          RoutedStep(e, cfg, start, v);
        }
      }
      ApplyKeeps(e, cfg, w, step, P);
    }
  }

  /** Over every run that leaves the cached port its handler, the cache makes no difference to the calls. */
  lemma {:induction false} CallsFollowTheLog(e: nat -> nat, cfg: Config, w: World, steps: seq<WorldStep>)
    requires Coherent(w.rx.dispatcher.table, w.rx.dispatcher.hot) && Orderly(e, cfg, w, steps)
    ensures Routed(cfg.capture.linkType, w.rx, Run(e, cfg, w, steps).rx)
    decreases |steps|
  {
    hide Apply, KeepsCache;
    if steps == [] {
      assert w.rx.dispatcher.out + [] == w.rx.dispatcher.out;
    } else {
      var n := |steps| - 1;
      forall i | 0 <= i < n ensures KeepsCache(Run(e, cfg, w, steps[..n][..i]).rx.dispatcher, steps[..n][i]) {
        assert steps[..n][..i] == steps[..i];
      }
      CallsFollowTheLog(e, cfg, w, steps[..n]);
      RoutedApply(e, cfg, w.rx, Run(e, cfg, w, steps[..n]), steps[n]);
    }
  }

  ghost predicate FixedTable(n: nat, table: Table, rx: Receiver) {
    rx.dispatcher.table == table && forall i :: n <= i < |rx.played| ==> rx.played[i].table == table
  }

  lemma TableIsFixed(e: nat -> nat, cfg: Config, w: World, steps: seq<WorldStep>)
    requires NoSubscription(steps)
    ensures FixedTable(|w.rx.played|, w.rx.dispatcher.table, Run(e, cfg, w, steps).rx)
  {
    hide Run, InternalStep;
    var n, table := |w.rx.played|, w.rx.dispatcher.table;
    var P := (rx: Receiver) => FixedTable(n, table, rx);
    assert Stable(e, cfg, P) by {
      forall v: World | P(v.rx) ensures P(InternalStep(e, cfg, v).world.rx) {
        PlayedStep(e, cfg, v);
      }
    }
    RunKeeps(e, cfg, w, steps, P);
  }

  lemma ShownDepends(a: Receiver, b: Receiver)
    requires a.played == b.played
    ensures Shown(a) == Shown(b)
  {
  }

  /** What a run has added to the log. */
  function Since(start: Receiver, rx: Receiver): seq<Played>
    requires start.played <= rx.played
  {
    rx.played[|start.played|..]
  }

  lemma ShownSince(start: Receiver, rx: Receiver)
    requires start.played <= rx.played
    ensures Shown(rx) == Shown(start) + FramesIn(Since(start, rx))
  {
  }

  lemma CommonPrefix(a: seq<Frame>, b: seq<Frame>, c: seq<Frame>)
    requires a + b <= a + c
    ensures b <= c && (a + b == a + c ==> b == c)
  {
    assert b == (a + b)[|a|..] && c == (a + c)[|a|..];
  }

  /** The handlers are given the payloads of the capture exactly once and in order, each to the handler of
      its port: under any schedule the calls made are those of a prefix of the sequential decoding by
      look-ups in the table of the moment, and of all of it when the replay has finished. */
  lemma HandlersSeeTheCapture(e: nat -> nat, cfg: Config, w: World, steps: seq<WorldStep>)
    requires Safe(cfg.capture, w.rx.pos) && !w.rx.finished
    requires Coherent(w.rx.dispatcher.table, w.rx.dispatcher.hot) && Orderly(e, cfg, w, steps)
    ensures var c, rx, all := cfg.capture, Run(e, cfg, w, steps).rx, Decode(cfg.capture, w.rx.pos);
            && w.rx.played <= rx.played && Coherent(rx.dispatcher.table, rx.dispatcher.hot)
            && FramesIn(Since(w.rx, rx)) <= all
            && rx.dispatcher.out == w.rx.dispatcher.out + RouteLog(c.linkType, Since(w.rx, rx))
            && (rx.finished ==> FramesIn(Since(w.rx, rx)) == all)
  {
    hide Run, Safe, Decode, Orderly, RouteLog, FramesIn, Shown;
    CallsFollowTheLog(e, cfg, w, steps);
    ExactlyOnce(e, cfg, w, steps);
    var rx := Run(e, cfg, w, steps).rx;
    ShownSince(w.rx, rx);
    CommonPrefix(Shown(w.rx), FramesIn(Since(w.rx, rx)), Decode(cfg.capture, w.rx.pos));
  }

  /** If nobody subscribes meanwhile, all calls are by the one table. */
  lemma CallsByOneTable(e: nat -> nat, cfg: Config, w: World, steps: seq<WorldStep>)
    requires Safe(cfg.capture, w.rx.pos) && !w.rx.finished && NoSubscription(steps)
    requires Coherent(w.rx.dispatcher.table, w.rx.dispatcher.hot)
    ensures var c, rx, table := cfg.capture, Run(e, cfg, w, steps).rx, w.rx.dispatcher.table;
            && w.rx.played <= rx.played && rx.dispatcher.table == table && Coherent(table, rx.dispatcher.hot)
            && (forall i :: 0 <= i < |Since(w.rx, rx)| ==> Since(w.rx, rx)[i].table == table)
            && rx.dispatcher.out == w.rx.dispatcher.out + RouteAll(c.linkType, table, FramesIn(Since(w.rx, rx)))
            && (rx.finished ==>
                  rx.dispatcher.out == w.rx.dispatcher.out + RouteAll(c.linkType, table, Decode(c, w.rx.pos)))
  {
    hide Run, Safe, Decode, RouteLog, RouteAll, FramesIn, Orderly;
    var rx := Run(e, cfg, w, steps).rx;
    NoSubscriptionIsOrderly(e, cfg, w, steps);
    HandlersSeeTheCapture(e, cfg, w, steps);
    TableIsFixed(e, cfg, w, steps);
    OneTable(cfg.capture.linkType, w.rx.dispatcher.table, Since(w.rx, rx));
  }

  /** The calls of a second pass: if a pass over the rewound file yields what the first did and nobody
      subscribes meanwhile, the handlers are called again as they were in the first pass. */
  lemma RewoundCallsAgain(e: nat -> nat, cfg: Config, w: World, steps: seq<WorldStep>, again: seq<WorldStep>)
    requires Safe(cfg.capture, w.rx.pos) && !w.rx.finished && Run(e, cfg, w, steps).rx.finished
    requires PlaysAlike(cfg.capture, Rewound(cfg.capture, End(cfg.capture, w.rx.pos)), w.rx.pos)
    requires Coherent(w.rx.dispatcher.table, w.rx.dispatcher.hot) && NoSubscription(steps) && NoSubscription(again)
    ensures CalledAgain(cfg, w.rx, Run(e, cfg, w, steps).rx, Run(e, cfg, Rewind(cfg, Run(e, cfg, w, steps)), again).rx)
  {
    hide Run, Safe, Decode, End, RouteAll, FramesIn;
    FinishedStandsAtEnd(e, cfg, w, steps);
    CallsByOneTable(e, cfg, w, steps);
    var w2 := Rewind(cfg, Run(e, cfg, w, steps));
    CallsByOneTable(e, cfg, w2, again);
    NoSubscriptionIsOrderly(e, cfg, w2, again);
    HandlersSeeTheCapture(e, cfg, w2, again);
    var first, second := Run(e, cfg, w, steps).rx, Run(e, cfg, w2, again).rx;
    assert Since(first, second) == Since(w2.rx, second);
  }

  /** `first` and `second` are the receiver at the end of a pass and later in the next one.  The first pass made
      some list of calls; the second has made those of the frames it has played, a prefix of the same frames by
      the same table, and when it has finished the very same list of calls. */
  ghost predicate CalledAgain(cfg: Config, start: Receiver, first: Receiver, second: Receiver) {
    var link, table, all := cfg.capture.linkType, start.dispatcher.table, Decode(cfg.capture, start.pos);
    && first.dispatcher.out == start.dispatcher.out + RouteAll(link, table, all)
    && first.played <= second.played && FramesIn(Since(first, second)) <= all
    && second.dispatcher.out == first.dispatcher.out + RouteAll(link, table, FramesIn(Since(first, second)))
    && (second.finished ==> second.dispatcher.out == first.dispatcher.out + RouteAll(link, table, all))
  }

  // ---------- Timed replay ----------

  /** The borrow in the target computation is exact, also for out-of-order and unnormalised timestamps. */
  lemma TargetIsOffset(rx: Receiver, ts: Timespec)
    ensures TargetTime(rx, ts) == rx.wallStart + Nanos(ts) - Nanos(rx.pcapStart)
    ensures TargetTime(rx, ts) - rx.wallStart ==
            (ts.sec - rx.pcapStart.sec) * 1_000_000_000 + (ts.nsec - rx.pcapStart.nsec)
  {
  }

  /** Since the clock showed `reset` and `base` packets had been played: if the replay clock has been set, then by
      the first packet since, at an instant between the reset and that packet; and no packet since was played
      before its time. */
  ghost predicate OnTime(base: nat, reset: nat, w: World) {
    var rx := w.rx;
    && reset <= w.loop.clock && (forall i :: base <= i < |rx.played| ==> reset <= rx.played[i].at <= w.loop.clock)
    && if rx.firstPacket then |rx.played| == base
       else
         && base < |rx.played| && rx.pcapStart == rx.played[base].frame.ts
         && reset <= rx.wallStart <= rx.played[base].at
         && forall i :: base <= i < |rx.played| ==>
              rx.played[i].at >= rx.wallStart + Nanos(rx.played[i].frame.ts) - Nanos(rx.pcapStart)
  }

  lemma OnTimeStep(e: nat -> nat, cfg: Config, base: nat, reset: nat, w: World)
    requires cfg.mode == Timed && OnTime(base, reset, w)
    ensures OnTime(base, reset, InternalStep(e, cfg, w).world)
  {
    hide DispatchStep, L.Perform, Next, TargetTime, Nanos;
    match Next(cfg.capture, w.rx.pos)
    case Fault =>
    case AtEnd(_) =>
    case AtPacket(pos, frame, next) =>
      var aimed := Aim(e, w.(rx := w.rx.(pos := pos)), frame.ts);
      TargetIsOffset(aimed.rx, frame.ts);
      var now := L.Tick(e, aimed.loop);
      var target := TargetTime(aimed.rx, frame.ts);
      if target > now.clock {
        CallTakesTime(e, now, L.RunAfter((target - now.clock) / NS_PER_MS, ReplayBatch));
      }
  }

  lemma CallTakesTime(e: nat -> nat, s: L.State, a: L.Action)
    ensures s.clock <= L.Perform(e, s, a).clock
  {
    hide L.Perform;
    LT.ClockAdvances(e, s, L.Call(a));
  }

  /** The replay clock was set, after the clock showed `reset`, by the `base`-th packet and no later than that was
      played; and every packet from it on was played no earlier than that instant plus the difference between its
      time and the time of the `base`-th packet. */
  ghost predicate NotEarlySince(base: nat, reset: nat, w: World) {
    var rx := w.rx;
    base < |rx.played| ==>
      && (forall i :: base <= i < |rx.played| ==> reset <= rx.played[i].at <= w.loop.clock)
      && reset <= rx.wallStart <= rx.played[base].at
      && forall i :: base <= i < |rx.played| ==>
           rx.played[i].at >= rx.wallStart + Nanos(rx.played[i].frame.ts) - Nanos(rx.played[base].frame.ts)
  }

  /** In a timed replay at normal speed, under any schedule, no packet is delivered before its time, counted
      from the first packet since the replay clock was reset. */
  lemma NeverEarly(e: nat -> nat, cfg: Config, w: World, steps: seq<WorldStep>)
    requires cfg.mode == Timed && w.rx.firstPacket
    ensures NotEarlySince(|w.rx.played|, w.loop.clock, Run(e, cfg, w, steps))
  {
    hide Run, InternalStep, Nanos;
    var base, reset := |w.rx.played|, w.loop.clock;
    var P := (v: World) => OnTime(base, reset, v);
    assert StableOn(e, cfg, P) by {
      forall v: World | P(v) ensures P(InternalStep(e, cfg, v).world) {
        OnTimeStep(e, cfg, base, reset, v);
      }
    }
    RunKeepsOn(e, cfg, w, steps, P);
  }

  /** `start` and `rewind` reset the replay clock: what follows is on time relative to its own first packet. */
  lemma RestartIsOnTime(e: nat -> nat, cfg: Config, w: World, steps: seq<WorldStep>)
    requires cfg.mode == Timed
    ensures NotEarlySince(|w.rx.played|, w.loop.clock, Run(e, cfg, StartReplay(e, cfg, w), steps))
    ensures NotEarlySince(|w.rx.played|, w.loop.clock, Run(e, cfg, Rewind(cfg, w), steps))
  {
    hide Run, Nanos, L.Perform;
    CallTakesTime(e, w.loop, L.RunAfter(0, ReplayBatch));
    NeverEarly(e, cfg, StartReplay(e, cfg, w), steps);
    NeverEarly(e, cfg, Rewind(cfg, w), steps);
  }
}
