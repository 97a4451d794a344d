/** The exact amount of work of a flood replay, in every run.  A batch continuation first floods, which schedules a
    flood continuation, and then goes on; so the number of continuations grows by one with every task phase. */
module FloodLaw {
  import opened Results
  import opened TimerQueue
  import opened Frames
  import opened Captures
  import opened ReplayModel
  import L = LoopModel
  import opened LoopInvariants
  import LT = LoopTheorems
  import RT = ReplayTheorems
  import RC = ReplayContinuations

  /** From `w` to `w'` exactly `n` packets were played, and the end was not met. */
  ghost predicate Consumed(c: Capture, w: World, w': World, n: nat) {
    && Safe(c, w'.rx.pos) && !w'.rx.finished
    && n <= |Decode(c, w.rx.pos)| && Decode(c, w'.rx.pos) == Decode(c, w.rx.pos)[n..]
    && |w'.rx.played| == |w.rx.played| + n
  }

  ghost predicate Ready(cfg: Config, w: World) {
    cfg.mode == Flood && Safe(cfg.capture, w.rx.pos) && !w.rx.finished
  }

  lemma ConsumedTwice(c: Capture, a: World, b: World, d: World, m: nat, n: nat)
    requires Consumed(c, a, b, m) && Consumed(c, b, d, n)
    ensures Consumed(c, a, d, m + n)
  {
    hide Decode, Safe;
    assert Decode(c, a.rx.pos)[m..][n..] == Decode(c, a.rx.pos)[m + n..];
  }

  lemma FloodStep(e: nat -> nat, cfg: Config, w: World)
    requires Ready(cfg, w) && Decode(cfg.capture, w.rx.pos) != []
    ensures var r := InternalStep(e, cfg, w);
            r.more && r.world.loop == w.loop && Consumed(cfg.capture, w, r.world, 1)
  {
    hide Safe, Decode, Next, DispatchStep;
    RT.NextDecides(cfg.capture, w.rx.pos);
    RT.StepOutcome(e, cfg, w);
  }

  lemma {:induction false} FloodSteps(e: nat -> nat, cfg: Config, w: World, n: nat)
    requires Ready(cfg, w) && n <= |Decode(cfg.capture, w.rx.pos)|
    ensures var r := StepUpTo(e, cfg, w, n);
            r.more && r.world.loop == w.loop && Consumed(cfg.capture, w, r.world, n)
    decreases n
  {
    hide Safe, Decode, InternalStep;
    if n > 0 {
      FloodStep(e, cfg, w);
      var w1 := InternalStep(e, cfg, w).world;
      FloodSteps(e, cfg, w1, n - 1);
      ConsumedTwice(cfg.capture, w, w1, StepUpTo(e, cfg, w1, n - 1).world, 1, n - 1);
    }
  }

  /** From `w` to `w'` all that was left was played, and the end was met. */
  ghost predicate Exhausted(c: Capture, w: World, w': World) {
    w'.rx.finished && Next(c, w'.rx.pos) == AtEnd(w'.rx.pos) && |w'.rx.played| == |w.rx.played| + |Decode(c, w.rx.pos)|
  }

  lemma FinishedStays(e: nat -> nat, cfg: Config, w: World, n: nat)
    requires w.rx.finished && Next(cfg.capture, w.rx.pos) == AtEnd(w.rx.pos) && 0 < n
    ensures StepUpTo(e, cfg, w, n) == StepResult(w, false)
  {
    hide Next;
  }

  /** If fewer packets are left, the end is met, and the loop is left alone. */
  lemma {:induction false} FloodEnds(e: nat -> nat, cfg: Config, w: World, n: nat)
    requires Ready(cfg, w) && |Decode(cfg.capture, w.rx.pos)| < n
    ensures var r := StepUpTo(e, cfg, w, n);
            !r.more && r.world.loop == w.loop && Exhausted(cfg.capture, w, r.world)
    decreases n
  {
    hide Safe, Decode, InternalStep, Next;
    if Decode(cfg.capture, w.rx.pos) == [] {
      RT.StepOutcome(e, cfg, w);
      RT.UntimedStep(e, cfg, w);
      RT.NextDecides(cfg.capture, w.rx.pos);
      RT.StepShape(e, cfg, w);
      SafeMeansNoFault(cfg.capture, w.rx.pos);
      LookAgain(cfg.capture, w.rx.pos);
    } else {
      FloodStep(e, cfg, w);
      FloodEnds(e, cfg, InternalStep(e, cfg, w).world, n - 1);
    }
  }

  /** Only tasks have been added to the loop's queue. */
  function Deferred(s: L.State, tasks: seq<Callback>): L.State {
    s.(pending := s.pending + tasks, hist := s.hist.(enqueued := s.hist.enqueued + tasks))
  }

  /** A flood continuation plays 20000 packets and defers itself; or, just if fewer are left, it plays those, meets the
      end, and defers nothing. */
  lemma FloodContinuation(e: nat -> nat, cfg: Config, w: World)
    requires Ready(cfg, w)
    ensures var w' := ProcessBatchFlood(e, cfg, w);
            if FLOOD_LIMIT <= |Decode(cfg.capture, w.rx.pos)|
            then Consumed(cfg.capture, w, w', FLOOD_LIMIT) && w'.loop == Deferred(w.loop, [ReplayFlood])
            else Exhausted(cfg.capture, w, w') && w'.loop == w.loop
  {
    hide Safe, Decode, StepUpTo;
    if FLOOD_LIMIT <= |Decode(cfg.capture, w.rx.pos)| {
      FloodSteps(e, cfg, w, FLOOD_LIMIT);
    } else {
      FloodEnds(e, cfg, w, FLOOD_LIMIT);
    }
  }

  /** A batch continuation plays 30000 packets and defers a flood and a batch continuation; or, just if fewer are
      left, it plays those and meets the end, and defers a flood continuation if it was not that one's part which
      did. */
  lemma BatchContinuation(e: nat -> nat, cfg: Config, w: World)
    requires Ready(cfg, w)
    ensures var w' := ProcessBatch(e, cfg, w);
            if FLOOD_LIMIT + BATCH_LIMIT <= |Decode(cfg.capture, w.rx.pos)|
            then
              && Consumed(cfg.capture, w, w', FLOOD_LIMIT + BATCH_LIMIT)
              && w'.loop == Deferred(w.loop, [ReplayFlood, ReplayBatch])
            else
              && Exhausted(cfg.capture, w, w')
              && w'.loop == if FLOOD_LIMIT <= |Decode(cfg.capture, w.rx.pos)| then Deferred(w.loop, [ReplayFlood])
                            else w.loop
  {
    hide Safe, Decode, StepUpTo, ProcessBatchFlood;
    FloodContinuation(e, cfg, w);
    var w1 := ProcessBatchFlood(e, cfg, w);
    if w1.rx.finished {
      FinishedStays(e, cfg, w1, BATCH_LIMIT);
    } else if FLOOD_LIMIT + BATCH_LIMIT <= |Decode(cfg.capture, w.rx.pos)| {
      FloodSteps(e, cfg, w1, BATCH_LIMIT);
      ConsumedTwice(cfg.capture, w, w1, StepUpTo(e, cfg, w1, BATCH_LIMIT).world, FLOOD_LIMIT, BATCH_LIMIT);
      assert [ReplayFlood, ReplayBatch] == [ReplayFlood] + [ReplayBatch];
      assert w.loop.pending + [ReplayFlood, ReplayBatch] == w.loop.pending + [ReplayFlood] + [ReplayBatch];
      assert w.loop.hist.enqueued + [ReplayFlood, ReplayBatch] ==
             w.loop.hist.enqueued + [ReplayFlood] + [ReplayBatch];
    } else {
      FloodEnds(e, cfg, w1, BATCH_LIMIT);
    }
  }

  // ---------- One step ----------

  /** What an invoked callback plays and defers if the replay is unfinished afterwards. */
  function Cost(cb: Callback): nat {
    if cb == ReplayBatch then FLOOD_LIMIT + BATCH_LIMIT else if cb == ReplayFlood then FLOOD_LIMIT else 0
  }

  function Produced(cb: Callback): seq<Callback> {
    if cb == ReplayBatch then [ReplayFlood, ReplayBatch] else if cb == ReplayFlood then [ReplayFlood] else []
  }

  lemma ContinuationEffect(e: nat -> nat, cfg: Config, w: World, cb: Callback)
    requires Ready(cfg, w) && !RunCallback(e, cfg, w, cb).rx.finished
    ensures var w' := RunCallback(e, cfg, w, cb);
            Consumed(cfg.capture, w, w', Cost(cb)) && w'.loop == Deferred(w.loop, Produced(cb))
  {
    hide Safe, Decode, ProcessBatch, ProcessBatchFlood;
    match cb
    case ReplayBatch => BatchContinuation(e, cfg, w);
    case ReplayFlood => FloodContinuation(e, cfg, w);
    case _ => NothingConsumed(cfg.capture, w);
  }

  lemma NothingConsumed(c: Capture, w: World)
    requires Safe(c, w.rx.pos) && !w.rx.finished
    ensures Consumed(c, w, w, 0) && Deferred(w.loop, []) == w.loop
  {
    hide Safe, Decode;
    assert Decode(c, w.rx.pos)[0..] == Decode(c, w.rx.pos);
  }

  /** The replay's continuations among some tasks. */
  function Replays(q: seq<Callback>): seq<Callback> {
    if q == [] then []
    else Replays(q[..|q| - 1]) + if RC.IsReplay(q[|q| - 1]) then [q[|q| - 1]] else []
  }

  lemma {:induction false} ReplaysConcat(a: seq<Callback>, b: seq<Callback>)
    ensures Replays(a + b) == Replays(a) + Replays(b)
    decreases |b|
  {
    if b == [] {
      assert a + b == a;
    } else {
      ReplaysConcat(a, b[..|b| - 1]);
      assert (a + b)[..|a + b| - 1] == a + b[..|b| - 1];
    }
  }

  lemma ReplaysOne(cb: Callback)
    ensures Replays([cb]) == if RC.IsReplay(cb) then [cb] else []
  {
    assert [cb][..0] == [];
  }

  lemma ProducedIsReplay(cb: Callback)
    ensures Replays(Produced(cb)) == Produced(cb)
  {
    ReplaysOne(ReplayFlood);
    ReplaysOne(ReplayBatch);
    ReplaysConcat([ReplayFlood], [ReplayBatch]);
    assert [ReplayFlood, ReplayBatch] == [ReplayFlood] + [ReplayBatch];
  }

  lemma {:induction false} BatchAmong(q: seq<Callback>)
    ensures ReplayBatch in q <==> ReplayBatch in Replays(q)
    decreases |q|
  {
    if q != [] {
      BatchAmong(q[..|q| - 1]);
      assert q == q[..|q| - 1] + [q[|q| - 1]];
    }
  }

  /** Where the replay's continuations are: how many of them are timers, which are being drained, and which are
      pending. */
  datatype Tally = Tally(timers: nat, now: seq<Callback>, next: seq<Callback>)

  ghost function TallyOf(s: L.State): Tally {
    Tally(|RC.Ours(s)|, Replays(Undrained(s.mode)), Replays(s.pending))
  }

  predicate BeginsPhase(s: L.State, step: WorldStep) {
    step == LoopStep(L.BeginTasks) && s.mode.Idle?
  }

  /** How a step that invokes `cb` moves the continuations. */
  ghost predicate Flows(t: Tally, t': Tally, begins: bool, task: bool, cb: Callback) {
    if begins then t.now == [] && t' == Tally(t.timers, t.next, [])
    else if task then t.now == Replays([cb]) + t'.now && t' == Tally(t.timers, t'.now, t.next + Produced(cb))
    else
      && t' == Tally(t'.timers, t.now, t.next + Produced(cb)) && cb != ReplayFlood
      && (if cb == ReplayBatch then t'.timers + 1 == t.timers && t.now == [] else t'.timers == t.timers)
  }

  ghost predicate Sound(s: L.State) {
    Inv(s) && RC.OneShot(s)
  }

  lemma DeferredFlow(s: L.State, cb: Callback)
    requires Sound(s)
    ensures var s' := Deferred(s, Produced(cb));
            Sound(s') && TallyOf(s') == TallyOf(s).(next := Replays(s.pending) + Produced(cb))
  {
    hide Inv, Replays;
    ProducedIsReplay(cb);
    ReplaysConcat(s.pending, Produced(cb));
    DeferredKeepsInv(s, Produced(cb));
  }

  lemma DeferredKeepsInv(s: L.State, tasks: seq<Callback>)
    requires Inv(s)
    ensures Inv(Deferred(s, tasks))
  {
    hide QueueOk, FlightOk, LineageOk, LogOk, PlaceOk, CreatedOk, Positive;
    assert s.hist.executed + Undrained(s.mode) + (s.pending + tasks) ==
           s.hist.executed + Undrained(s.mode) + s.pending + tasks;
    SameTimersKeepsInv(s, Deferred(s, tasks));
  }

  /** The loop's own part of a step: the callback has been invoked, but has not done anything yet. */
  lemma LoopFlow(e: nat -> nat, s: L.State, step: L.Step)
    requires Sound(s) && RC.Foreign(s, step)
    ensures var s', t, cb := L.Apply(e, s, step), TallyOf(s), Invoked(s, step);
            var t' := TallyOf(s');
            && Sound(s')
            && Flows(t, t'.(next := t'.next + Produced(cb)), BeginsPhase(s, LoopStep(step)), step.NextTask?, cb)
  {
    hide Inv, RC.Ours, RC.OneShot, L.Apply, Replays;
    LT.InvIndexable(s);
    StepKeepsInv(e, s, step);
    RC.ForeignStepOurs(e, s, step);
    RC.TaskFlow(e, s, step);
    var before := Undrained(s.mode);
    ReplaysNone();
    FiringDrainsNothing(s);
    assert s.pending + [] == s.pending;
    if step.NextTask? && before != [] {
      ReplaysConcat([before[0]], before[1..]);
      assert before == [before[0]] + before[1..];
    } else if step.Call? && step.action.RunInLoop? {
      ReplaysConcat(s.pending, [step.action.task]);
      ReplaysOne(step.action.task);
    }
  }

  lemma FiringDrainsNothing(s: L.State)
    ensures Invoked(s, L.FireNext) != Empty ==> Undrained(s.mode) == []
  {
  }

  lemma ReplaysNone()
    ensures Replays([]) == [] && Replays([Empty]) == []
  {
    ReplaysOne(Empty);
  }

  /** One step of a run: what it plays, and how it moves the continuations, if the replay is unfinished after it. */
  lemma StepFlow(e: nat -> nat, cfg: Config, w: World, step: WorldStep)
    requires Ready(cfg, w) && Sound(w.loop) && RC.MayOccur(w, step) && !ReplayModel.Apply(e, cfg, w, step).rx.finished
    ensures var w', cb := ReplayModel.Apply(e, cfg, w, step), RT.InvokedBy(w, step);
            && Ready(cfg, w') && Sound(w'.loop)
            && Consumed(cfg.capture, w, w', Cost(cb) + if step.ManualStep? then 1 else 0)
            && Flows(TallyOf(w.loop), TallyOf(w'.loop), BeginsPhase(w.loop, step), step == LoopStep(L.NextTask), cb)
  {
    hide Safe, Decode, Sound, TallyOf, L.Apply, ProcessBatch, ProcessBatchFlood, InternalStep, Invoked, RC.Foreign;
    match step
    case SubscribeStep(_, _, _) => NothingConsumed(cfg.capture, w);
    case ManualStep =>
      RT.StepOutcome(e, cfg, w);
      FloodStep(e, cfg, w);
    case LoopStep(s) =>
      var w1 := w.(loop := L.Apply(e, w.loop, s));
      LoopFlow(e, w.loop, s);
      ContinuationEffect(e, cfg, w1, Invoked(w.loop, s));
      DeferredFlow(w1.loop, Invoked(w.loop, s));
      TallyNext(w1.loop);
  }

  lemma TallyNext(s: L.State)
    ensures TallyOf(s).next == Replays(s.pending)
  {
  }

  // ---------- The balance of every run ----------

  function Count(q: seq<Callback>, cb: Callback): nat {
    multiset(q)[cb]
  }

  lemma CountConcat(a: seq<Callback>, b: seq<Callback>, cb: Callback)
    ensures Count(a + b, cb) == Count(a, cb) + Count(b, cb)
  {
  }

  lemma CountProduced(cb: Callback)
    ensures Count(Produced(cb), ReplayFlood) == Count(Replays([cb]), ReplayFlood) + if cb == ReplayBatch then 1 else 0
    ensures Count(Produced(cb), ReplayBatch) == Count(Replays([cb]), ReplayBatch)
    ensures Count(Produced(cb), ReplayBatch) == if cb == ReplayBatch then 1 else 0
    ensures Count(Produced(cb), ReplayFlood) == if RC.IsReplay(cb) then 1 else 0
  {
    ReplaysOne(cb);
  }

  /** How many flood continuations are outstanding, and how many batch continuations. */
  ghost function FloodsOf(t: Tally): nat {
    Count(t.now, ReplayFlood) + Count(t.next, ReplayFlood)
  }

  ghost function BatchesOf(t: Tally): nat {
    t.timers + Count(t.now, ReplayBatch) + Count(t.next, ReplayBatch)
  }

  lemma FlowBalance(t: Tally, t': Tally, begins: bool, task: bool, cb: Callback)
    requires Flows(t, t', begins, task, cb) && (begins ==> !RC.IsReplay(cb))
    ensures FloodsOf(t') == FloodsOf(t) + (if cb == ReplayBatch then 1 else 0) && BatchesOf(t') == BatchesOf(t)
  {
    hide Replays, Produced, Count;
    CountProduced(cb);
    CountNone();
    forall c: Callback
      ensures Count(t.next + Produced(cb), c) == Count(t.next, c) + Count(Produced(cb), c)
      ensures Count(Replays([cb]) + t'.now, c) == Count(Replays([cb]), c) + Count(t'.now, c)
    {
      CountConcat(t.next, Produced(cb), c);
      CountConcat(Replays([cb]), t'.now, c);
    }
  }

  lemma CountNone()
    ensures forall cb :: Count([], cb) == 0
  {
  }

  /** The balance of a flood replay.  In every run with loop steps of other clients, manual steps and
      subscriptions, on any loop and with any continuations outstanding at the start: as long as the end is not
      met, every batch continuation invoked plays 30000 packets and adds a flood continuation, every flood
      continuation invoked plays 20000, every manual step one, and the number of batch continuations stays. */
  lemma {:induction false} FloodBalance(e: nat -> nat, cfg: Config, w: World, steps: seq<WorldStep>)
    requires cfg.mode == Flood && Safe(cfg.capture, w.rx.pos) && Sound(w.loop) && RC.ForeignRun(e, cfg, w, steps)
    requires !ReplayModel.Run(e, cfg, w, steps).rx.finished
    ensures var w' := ReplayModel.Run(e, cfg, w, steps);
            var b, f := RT.Invocations(e, cfg, w, steps, ReplayBatch), RT.Invocations(e, cfg, w, steps, ReplayFlood);
            && Sound(w'.loop) && Ready(cfg, w) && Ready(cfg, w')
            && Consumed(cfg.capture, w, w', 30000 * b + 20000 * f + RT.ManualSteps(steps))
            && FloodsOf(TallyOf(w'.loop)) == FloodsOf(TallyOf(w.loop)) + b
            && BatchesOf(TallyOf(w'.loop)) == BatchesOf(TallyOf(w.loop))
    decreases |steps|
  {
    hide Safe, Decode, Sound, TallyOf, FloodsOf, BatchesOf, ReplayModel.Apply, RC.ForeignRun, Flows, RC.MayOccur;
    if steps == [] {
      NothingConsumed(cfg.capture, w);
    } else {
      var init, last := steps[..|steps| - 1], steps[|steps| - 1];
      var w1 := ReplayModel.Run(e, cfg, w, init);
      RC.ForeignPrefix(e, cfg, w, steps);
      RT.UnfinishedBefore(e, cfg, w1, last);
      FloodBalance(e, cfg, w, init);
      StepFlow(e, cfg, w1, last);
      var w' := ReplayModel.Run(e, cfg, w, steps);
      var cb := RT.InvokedBy(w1, last);
      assert BeginsPhase(w1.loop, last) ==> !RC.IsReplay(cb);
      FlowBalance(TallyOf(w1.loop), TallyOf(w'.loop), BeginsPhase(w1.loop, last), last == LoopStep(L.NextTask), cb);
      var b, f := RT.Invocations(e, cfg, w, init, ReplayBatch), RT.Invocations(e, cfg, w, init, ReplayFlood);
      var done := 30000 * b + 20000 * f + RT.ManualSteps(init);
      ConsumedTwice(cfg.capture, w, w1, w', done, Cost(cb) + if last.ManualStep? then 1 else 0);
    }
  }

  // ---------- Task phases ----------

  function Floods(k: nat): seq<Callback> {
    seq(k, _ => ReplayFlood)
  }

  /** The continuations pending after n phases: n + 1 flood continuations and the batch continuation. */
  function Queue(n: nat): seq<Callback> {
    Floods(n + 1) + [ReplayBatch]
  }

  /** The packets played by the batch continuation that the start scheduled, and in n phases after it. */
  function Work(n: nat): nat {
    10000 * ((n + 1) * (n + 3))
  }

  lemma WorkGrows(n: nat)
    ensures Work(n + 1) == Work(n) + FLOOD_LIMIT * (n + 1) + (FLOOD_LIMIT + BATCH_LIMIT)
  {
    assert (n + 2) * (n + 4) == (n + 1) * (n + 3) + 2 * (n + 1) + 3;
  }

  /** The packets that k flood continuations play in m phases. */
  function Extra(k: nat, m: nat): nat {
    FLOOD_LIMIT * (m * k)
  }

  /** The work of n phases if k more flood continuations take part, and did so in m phases before the start's
      continuation fired. */
  function Total(k: nat, m: nat, n: nat): nat {
    Work(n) + Extra(k, m + n)
  }

  lemma TotalGrows(k: nat, m: nat, n: nat)
    ensures Total(k, m, n + 1) == Total(k, m, n) + FLOOD_LIMIT * (k + n + 1) + (FLOOD_LIMIT + BATCH_LIMIT)
    ensures Extra(k, m + 1) == Extra(k, m) + FLOOD_LIMIT * k
    ensures Total(k, m, 0) == Extra(k, m) + (FLOOD_LIMIT + BATCH_LIMIT)
  {
    hide Work;
    WorkGrows(n);
    assert Work(0) == FLOOD_LIMIT + BATCH_LIMIT by { FirstWork(); }
    assert (m + n + 1) * k == (m + n) * k + k && (m + 1) * k == m * k + k;
  }

  lemma FirstWork()
    ensures Work(0) == FLOOD_LIMIT + BATCH_LIMIT
  {
  }

  /** After m phases before and n phases since the start's continuation fired, the last of which may still be under
      way, with k flood continuations left over from before the start. */
  ghost predicate Progress(k: nat, m: nat, n: nat, t: Tally, done: int) {
    var u := |t.now|;
    if t.timers == 1 then
      && n == 0 && u <= k && t.now == Floods(u) && t.next == Floods(k - u)
      && done + FLOOD_LIMIT * u == Extra(k, m)
    else if u == 0 then t.timers == 0 && t.next == Queue(k + n) && done == Total(k, m, n)
    else
      && t.timers == 0 && u - 1 <= k + n && t.now == Floods(u - 1) + [ReplayBatch] && t.next == Floods(k + n + 1 - u)
      && done + FLOOD_LIMIT * (u - 1) + (FLOOD_LIMIT + BATCH_LIMIT) == Total(k, m, n)
  }

  lemma ProgressStarts(k: nat)
    ensures Progress(k, 0, 0, Tally(1, [], Floods(k)), 0)
  {
    FloodsNone();
    assert 0 * k == 0;
  }

  lemma ProgressBegins(k: nat, m: nat, n: nat, t: Tally, t': Tally, task: bool, cb: Callback, done: int)
    requires Progress(k, m, n, t, done) && Flows(t, t', true, task, cb)
    ensures var late := ReplayBatch in t.next;
            Progress(k, if late then m else m + 1, if late then n + 1 else n, t', done)
  {
    hide Total, Extra, Replays, Produced;
    TotalGrows(k, m, n);
    if t.timers == 0 {
      assert t.next[k + n + 1] == ReplayBatch;
    }
  }

  lemma FloodsTurn(k: nat, u: nat)
    requires 0 < u <= k
    ensures Floods(u)[0] == ReplayFlood && Floods(u)[1..] == Floods(u - 1)
    ensures Floods(k - u) + [ReplayFlood] == Floods(k - (u - 1))
  {
  }

  /** A flood continuation of the phase has been executed. */
  lemma FloodExecuted(k: nat, m: nat, n: nat, t: Tally, done: int)
    requires Progress(k, m, n, t, done) && t.now != [] && t.now[0] == ReplayFlood
    ensures Progress(k, m, n, Tally(t.timers, t.now[1..], t.next + [ReplayFlood]), done + FLOOD_LIMIT)
  {
    hide Total, Extra, Floods;
    var u := |t.now|;
    if t.timers == 1 {
      FloodsTurn(k, u);
    } else {
      FloodsNone();
      assert u > 1;
      FloodsTurn(k + n, u - 1);
      assert t.now[1..] == Floods(u - 1)[1..] + [ReplayBatch];
    }
  }

  lemma FloodsNone()
    ensures Floods(0) == []
  {
  }

  /** The batch continuation of the phase, its last one, has been executed. */
  lemma BatchExecuted(k: nat, m: nat, n: nat, t: Tally, done: int)
    requires Progress(k, m, n, t, done) && t.now != [] && t.now[0] == ReplayBatch
    ensures Progress(k, m, n, Tally(t.timers, t.now[1..], t.next + [ReplayFlood, ReplayBatch]),
                     done + (FLOOD_LIMIT + BATCH_LIMIT))
  {
    hide Total;
    assert t.timers == 0 && |t.now| == 1;
    assert Floods(k + n) + [ReplayFlood, ReplayBatch] == Queue(k + n);
  }

  lemma ProgressExecutes(k: nat, m: nat, n: nat, t: Tally, t': Tally, cb: Callback, done: int)
    requires Progress(k, m, n, t, done) && Flows(t, t', false, true, cb)
    ensures Progress(k, m, n, t', done + Cost(cb))
  {
    hide Progress, Replays;
    ReplaysOne(cb);
    if RC.IsReplay(cb) {
      assert t.now[0] == cb && t'.now == t.now[1..];
      if cb == ReplayFlood { FloodExecuted(k, m, n, t, done); } else { BatchExecuted(k, m, n, t, done); }
    } else {
      assert t' == t;
    }
  }

  lemma ProgressFires(k: nat, m: nat, n: nat, t: Tally, t': Tally, cb: Callback, done: int)
    requires Progress(k, m, n, t, done) && Flows(t, t', false, false, cb)
    ensures Progress(k, m, n, t', done + Cost(cb))
  {
    hide Total, Extra, Replays;
    TotalGrows(k, m, 0);
    if cb == ReplayBatch {
      assert Floods(k) + [ReplayFlood, ReplayBatch] == Queue(k);
    }
  }

  /** How many phases of a run began with, or without, a batch continuation in the queue. */
  function Phases(e: nat -> nat, cfg: Config, w: World, steps: seq<WorldStep>, late: bool): nat {
    if steps == [] then 0
    else
      var init, last := steps[..|steps| - 1], steps[|steps| - 1];
      var s := ReplayModel.Run(e, cfg, w, init).loop;
      Phases(e, cfg, w, init, late) + if BeginsPhase(s, last) && (ReplayBatch in s.pending) == late then 1 else 0
  }

  lemma ProgressStep(e: nat -> nat, cfg: Config, w: World, step: WorldStep, k: nat, m: nat, n: nat, done: int)
    requires Ready(cfg, w) && Sound(w.loop) && RC.MayOccur(w, step) && !ReplayModel.Apply(e, cfg, w, step).rx.finished
    requires Progress(k, m, n, TallyOf(w.loop), done)
    ensures var begins, late := BeginsPhase(w.loop, step), ReplayBatch in w.loop.pending;
            Progress(k, if begins && !late then m + 1 else m, if begins && late then n + 1 else n,
                     TallyOf(ReplayModel.Apply(e, cfg, w, step).loop), done + Cost(RT.InvokedBy(w, step)))
  {
    hide Progress, Ready, Sound, ReplayModel.Apply, RC.MayOccur, Replays, TallyOf, Flows;
    var t, t', cb := TallyOf(w.loop), TallyOf(ReplayModel.Apply(e, cfg, w, step).loop), RT.InvokedBy(w, step);
    StepFlow(e, cfg, w, step);
    if BeginsPhase(w.loop, step) {
      BatchAmong(w.loop.pending);
      TallyNext(w.loop);
      ProgressBegins(k, m, n, t, t', false, cb, done);
    } else if step == LoopStep(L.NextTask) {
      ProgressExecutes(k, m, n, t, t', cb, done);
    } else {
      ProgressFires(k, m, n, t, t', cb, done);
    }
  }

  /** The packets played between two worlds, other than by manual steps. */
  function Flooded(w: World, w': World, steps: seq<WorldStep>): int {
    |w'.rx.played| - |w.rx.played| - RT.ManualSteps(steps)
  }

  /** Every run keeps to the phases, whatever timers and tasks of other clients, manual steps and subscriptions
      lie between its steps. */
  lemma {:induction false} RunProgress(e: nat -> nat, cfg: Config, w: World, steps: seq<WorldStep>, k: nat)
    requires cfg.mode == Flood && Safe(cfg.capture, w.rx.pos) && Sound(w.loop) && RC.ForeignRun(e, cfg, w, steps)
    requires TallyOf(w.loop) == Tally(1, [], Floods(k)) && !ReplayModel.Run(e, cfg, w, steps).rx.finished
    ensures var w' := ReplayModel.Run(e, cfg, w, steps);
            && Ready(cfg, w') && Sound(w'.loop)
            && Progress(k, Phases(e, cfg, w, steps, false), Phases(e, cfg, w, steps, true), TallyOf(w'.loop),
                        Flooded(w, w', steps))
    decreases |steps|
  {
    hide Safe, Decode, Sound, TallyOf, ReplayModel.Apply, RC.ForeignRun, Flows, RC.MayOccur, BeginsPhase, RT.InvokedBy;
    hide Progress, Floods;
    if steps == [] {
      ProgressStarts(k);
    } else {
      var init, last := steps[..|steps| - 1], steps[|steps| - 1];
      var w1 := ReplayModel.Run(e, cfg, w, init);
      RC.ForeignPrefix(e, cfg, w, steps);
      RT.UnfinishedBefore(e, cfg, w1, last);
      RunProgress(e, cfg, w, init, k);
      StepFlow(e, cfg, w1, last);
      ProgressStep(e, cfg, w1, last, k, Phases(e, cfg, w, init, false), Phases(e, cfg, w, init, true),
                   Flooded(w, w1, init));
    }
  }

  /** None of the replay's continuations is outstanding but k flood continuations that are pending, as a replay
      before may have left them. */
  ghost predicate Startable(cfg: Config, w: World, k: nat) {
    Ready(cfg, w) && Sound(w.loop) && TallyOf(w.loop) == Tally(0, [], Floods(k))
  }

  /** The replay has not met the end, and none of its continuations is being drained. */
  ghost predicate BetweenPhases(w: World) {
    !w.rx.finished && TallyOf(w.loop).now == []
  }

  /** The start's continuation is still a timer, and m phases have only run the k flood continuations. */
  ghost predicate NotFired(cfg: Config, w: World, w': World, k: nat, m: nat, manual: nat) {
    TallyOf(w'.loop) == Tally(1, [], Floods(k)) && Consumed(cfg.capture, w, w', Extra(k, m) + manual)
  }

  /** The start's continuation has fired, and n phases have followed. */
  ghost predicate Fired(cfg: Config, w: World, w': World, k: nat, m: nat, n: nat, manual: nat) {
    TallyOf(w'.loop) == Tally(0, [], Queue(k + n)) && Consumed(cfg.capture, w, w', Total(k, m, n) + manual)
  }

  /** The flood work law.  A flood replay is started on any loop.  In every run from there, with whatever else the
      loop does in between, between two task phases and as long as the end is not met: once the start's
      continuation has fired, n phases later, n + 1 flood continuations and one batch continuation are pending, in
      that order, and 10000 (n + 1) (n + 3) packets have been played, not counting those of manual steps; and k flood
      continuations left over from before the start go on beside them, 20000 packets each in every phase. */
  lemma FloodWorkLaw(e: nat -> nat, cfg: Config, w: World, started: World, steps: seq<WorldStep>, k: nat)
    requires Startable(cfg, w, k) && started == StartReplay(e, cfg, w) && RC.ForeignRun(e, cfg, started, steps)
    requires BetweenPhases(ReplayModel.Run(e, cfg, started, steps))
    ensures var w' := ReplayModel.Run(e, cfg, started, steps);
            var m, n := Phases(e, cfg, started, steps, false), Phases(e, cfg, started, steps, true);
            || (NotFired(cfg, w, w', k, m, RT.ManualSteps(steps)) && n == 0)
            || Fired(cfg, w, w', k, m, n, RT.ManualSteps(steps))
  {
    hide Safe, Decode, Sound, TallyOf, ReplayModel.Run, RC.ForeignRun, Total, FloodsOf, BatchesOf, L.Perform, Floods;
    StartFlow(e, w.loop);
    RunProgress(e, cfg, started, steps, k);
    FloodBalance(e, cfg, started, steps);
  }

  lemma StartFlow(e: nat -> nat, s: L.State)
    requires Sound(s)
    ensures var s' := L.Perform(e, s, L.RunAfter(0, ReplayBatch));
            Sound(s') && TallyOf(s') == TallyOf(s).(timers := TallyOf(s).timers + 1)
  {
    hide Inv, RC.Ours, RC.OneShot, L.AddTimer, Replays;
    PerformKeepsInv(e, s, L.RunAfter(0, ReplayBatch));
    RC.AddOurs(e, s, 0, 0, ReplayBatch, false);
  }
}
