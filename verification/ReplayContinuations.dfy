/** Liveness of a timed replay: how many continuations of it are scheduled, in every run; in particular exactly
    one while it is unfinished and nobody steps it by hand. */
module ReplayContinuations {
  import opened Results
  import opened TimerQueue
  import opened Frames
  import opened Captures
  import opened ReplayModel
  import L = LoopModel
  import opened LoopInvariants
  import LT = LoopTheorems
  import RT = ReplayTheorems

  /** The extracted timers that have not had their turn. */
  function Waiting(mode: L.Mode): seq<Timer> {
    if mode.InPass? && mode.next + (if mode.running then 1 else 0) <= |mode.expired|
    then mode.expired[mode.next + (if mode.running then 1 else 0)..]
    else []
  }

  ghost function QueuedOurs(index: map<nat, Timer>): set<nat> {
    set id | id in index && index[id].callback == ReplayBatch
  }

  ghost function WaitingOurs(ts: seq<Timer>): set<nat> {
    set t | t in ts && t.callback == ReplayBatch :: t.id
  }

  /** The ids of the scheduled continuations of the replay. */
  ghost function Ours(s: L.State): set<nat> {
    QueuedOurs(s.index) + WaitingOurs(Waiting(s.mode))
  }

  predicate IsReplay(cb: Callback) {
    cb == ReplayBatch || cb == ReplayFlood
  }

  /** The replay's own timers do not repeat, and run its batch continuation. */
  ghost predicate OneShot(s: L.State) {
    && (forall id :: id in s.index && IsReplay(s.index[id].callback) ==>
          !s.index[id].repeat && s.index[id].callback == ReplayBatch)
    && (forall t :: t in Flight(s.mode) && IsReplay(t.callback) ==> !t.repeat && t.callback == ReplayBatch)
  }

  /** No continuation is in the task queue: a timed replay uses timers only. */
  ghost predicate NoReplayTasks(s: L.State) {
    forall task :: task in s.pending || task in Undrained(s.mode) ==> !IsReplay(task)
  }

  /** A step of other code: it neither schedules the replay's continuation nor cancels it. */
  ghost predicate Foreign(s: L.State, step: L.Step) {
    step.Call? ==>
      match step.action
      case RunAfter(_, cb) => !IsReplay(cb)
      case RunEvery(_, cb) => !IsReplay(cb)
      case CancelTimer(id) => id !in Ours(s)
      case RunInLoop(task) => !IsReplay(task)
      case ReadClock => true
  }

  // ---------- Loop steps ----------

  lemma NextIdIsNew(s: L.State)
    requires Inv(s)
    ensures s.nextId !in s.index && s.nextId !in Ours(s) && 0 < s.nextId
  {
    hide LogOk, LineageOk, TasksOk, PlaceOk;
    assert forall t :: t in Waiting(s.mode) ==> t in Flight(s.mode);
  }

  lemma IndexedOurs(index: map<nat, Timer>, t: Timer)
    requires t.id !in index
    ensures QueuedOurs(index[t.id := t]) == QueuedOurs(index) + if t.callback == ReplayBatch then {t.id} else {}
  {
  }

  lemma AddOurs(e: nat -> nat, s: L.State, delay: nat, interval: nat, cb: Callback, repeat: bool)
    requires Inv(s) && OneShot(s) && (IsReplay(cb) ==> !repeat && cb == ReplayBatch)
    ensures var s' := L.AddTimer(e, s, delay, interval, cb, repeat);
            && s'.mode == s.mode && s'.pending == s.pending && OneShot(s')
            && Ours(s') == Ours(s) + (if cb == ReplayBatch then {s.nextId} else {}) && s.nextId !in Ours(s)
  {
    hide Inv, L.AddTimer, QueuedOurs, WaitingOurs, Waiting, Flight;
    NextIdIsNew(s);
    LT.InvIndexable(s);
    LT.AddIndexes(e, s, delay, interval, cb, repeat);
    IndexedOurs(s.index, Timer(L.Tick(e, s).clock + delay * NS_PER_MS, interval, cb, s.nextId, repeat));
  }

  lemma ForeignCallOurs(e: nat -> nat, s: L.State, a: L.Action)
    requires Inv(s) && OneShot(s) && Foreign(s, L.Call(a))
    ensures var s' := L.Perform(e, s, a); Ours(s') == Ours(s) && OneShot(s')
  {
    hide L.AddTimer, Inv;
    match a
    case RunAfter(delay, cb) => if delay >= 0 { AddOurs(e, s, delay, 0, cb, false); }
    case RunEvery(interval, cb) => if interval > 0 { AddOurs(e, s, interval, interval, cb, true); }
    case CancelTimer(id) =>
      if id in s.index { assert QueuedOurs(s.index - {id}) == QueuedOurs(s.index); }
    case RunInLoop(_) =>
    case ReadClock =>
  }

  /** Extraction takes timers out of the index, and puts those in flight. */
  lemma ExtractMoves(s: L.State)
    requires QueueOk(s.timers, s.index, s.nextId)
    ensures var s' := L.Extract(s);
            && (forall id :: id in s'.index ==> id in s.index && s'.index[id] == s.index[id])
            && (forall t :: t in Flight(s'.mode) ==> t.id in s.index && s.index[t.id] == t)
            && (forall id :: id in s.index && id !in s'.index ==>
                  s.index[id].id == id && s.index[id] in Flight(s'.mode))
            && Waiting(s'.mode) == Flight(s'.mode)
  {
    ExtractKeepsQueue(s);
  }

  lemma ExtractOurs(s: L.State)
    requires QueueOk(s.timers, s.index, s.nextId) && s.mode.Idle? && OneShot(s)
    ensures Ours(L.Extract(s)) == Ours(s) && OneShot(L.Extract(s))
  {
    hide QueueOk, L.Extract, Flight;
    var s' := L.Extract(s);
    ExtractMoves(s);
    assert Waiting(s.mode) == [];
    forall id | id in Ours(s') ensures id in Ours(s) {
      if id !in QueuedOurs(s'.index) {
        var t :| t in Flight(s'.mode) && t.callback == ReplayBatch && t.id == id;
      }
    }
    forall id | id in Ours(s) ensures id in Ours(s') {
      if id !in s'.index { assert s.index[id] in Flight(s'.mode); }
    }
  }

  lemma WaitingIsFlight(s: L.State)
    requires s.mode.InPass? && !s.mode.running && s.mode.next < |s.mode.expired|
    ensures Waiting(s.mode) == Flight(s.mode) && Waiting(L.StartCallback(s).mode) == Flight(L.Passed(s).mode)
  {
  }

  lemma HeadOurs(head: Timer, rest: seq<Timer>)
    ensures WaitingOurs([head] + rest) == WaitingOurs(rest) + if head.callback == ReplayBatch then {head.id} else {}
  {
  }

  /** When the pass comes to a timer, it is no longer waiting. */
  lemma FireOurs(s: L.State)
    requires Inv(s) && OneShot(s) && s.mode.InPass? && !s.mode.running && s.mode.next < |s.mode.expired|
    ensures var s' := L.StartCallback(s);
            var head := s.mode.expired[s.mode.next];
            && OneShot(s')
            && Ours(s') == Ours(s) - (if head.callback == ReplayBatch then {head.id} else {})
            && (head.callback == ReplayBatch ==> head.id in Ours(s))
  {
    hide Inv, Flight, Waiting, FlightOk;
    var head, rest := s.mode.expired[s.mode.next], Flight(L.Passed(s).mode);
    LT.InvFlight(s);
    FlightIds(s);
    FlightHead(s.mode);
    StartKeepsFlight(s);
    WaitingIsFlight(s);
    HeadOurs(head, rest);
    assert head.id !in QueuedOurs(s.index) && head.id !in WaitingOurs(rest);
  }

  lemma FinishOurs(e: nat -> nat, s: L.State)
    requires Inv(s) && OneShot(s) && s.mode.InPass? && s.mode.running && s.mode.next < |s.mode.expired|
    ensures var s' := L.Apply(e, s, L.EndCallback); Ours(s') == Ours(s) && OneShot(s') && s'.pending == s.pending
  {
    hide Inv, L.InsertTimer, Flight, Waiting, FlightOk, QueuedOurs, WaitingOurs;
    var s', t := L.Apply(e, s, L.EndCallback), s.mode.expired[s.mode.next];
    LT.InvFlight(s);
    FlightIds(s);
    if t.repeat {
      LT.RescheduleNeverCollides(e, s);
      IndexedOurs(s.index, t.Advanced());
    }
    assert s'.mode == L.Passed(s).mode;
    assert Waiting(s'.mode) == Waiting(s.mode) by { PassedKeepsWaiting(s); }
  }

  lemma PassedKeepsWaiting(s: L.State)
    requires s.mode.InPass? && s.mode.running && s.mode.next < |s.mode.expired|
    ensures Waiting(L.Passed(s).mode) == Waiting(s.mode)
  {
  }

  lemma BeginPassOurs(e: nat -> nat, s: L.State, ok: bool)
    requires Inv(s) && OneShot(s) && s.mode.Idle?
    ensures var s' := L.Apply(e, s, L.BeginPass(ok)); Ours(s') == Ours(s) && OneShot(s') && s'.pending == s.pending
    ensures !L.Apply(e, s, L.BeginPass(ok)).mode.Draining?
  {
    hide Inv, L.Extract;
    var s1 := L.Tick(e, L.Tick(e, s).(armed := None));
    LT.InvIndexable(s);
    ExtractOurs(s1);
    assert L.Extract(s1).pending == s.pending && L.Extract(s1).mode.InPass? by { ExtractShape(s1); }
  }

  lemma ExtractShape(s: L.State)
    ensures L.Extract(s).pending == s.pending && L.Extract(s).mode.InPass?
  {
  }

  lemma SameIndexOurs(s: L.State, s': L.State)
    requires OneShot(s) && s'.index == s.index && Waiting(s.mode) == [] && Flight(s'.mode) == Waiting(s'.mode) == []
    ensures Ours(s') == Ours(s) && OneShot(s')
  {
  }

  lemma EndPassOurs(e: nat -> nat, s: L.State)
    requires OneShot(s) && s.mode.InPass?
    ensures var s' := L.Apply(e, s, L.EndPass);
            Ours(s') == Ours(s) && OneShot(s') && s'.pending == s.pending && !s'.mode.Draining?
  {
    hide Ours, OneShot;
    var s' := L.Apply(e, s, L.EndPass);
    if s' != s { SameIndexOurs(s, s'); }
  }

  lemma TaskStepOurs(e: nat -> nat, s: L.State, step: L.Step)
    requires OneShot(s) && (step.BeginTasks? || step.NextTask? || step.EndTasks?)
    ensures var s' := L.Apply(e, s, step); Ours(s') == Ours(s) && OneShot(s')
  {
    hide Ours, OneShot;
    var s' := L.Apply(e, s, step);
    if s' != s { SameIndexOurs(s, s'); }
  }

  /** A foreign loop step leaves the scheduled continuations alone, except that firing one takes it. */
  lemma ForeignStepOurs(e: nat -> nat, s: L.State, step: L.Step)
    requires Inv(s) && OneShot(s) && Foreign(s, step)
    ensures var s' := L.Apply(e, s, step);
            && OneShot(s')
            && (step.FireNext? ==> Invoked(s, step) != ReplayFlood)
            && (step.FireNext? && Invoked(s, step) == ReplayBatch ==> |Ours(s)| == |Ours(s')| + 1)
            && (!(step.FireNext? && Invoked(s, step) == ReplayBatch) ==> Ours(s') == Ours(s))
  {
    hide Inv, Ours, L.Perform, L.BeginFiring, L.ResetTimerFd, L.InsertTimer, L.Extract;
    match (step, s.mode)
    case (Call(a), _) => ForeignCallOurs(e, s, a);
    case (BeginPass(ok), Idle) => BeginPassOurs(e, s, ok);
    case (FireNext, InPass(now, expired, next, running)) =>
      if !running && next < |expired| {
        FireOurs(s);
        assert expired[next] in Flight(s.mode);
      }
    case (EndCallback, InPass(now, expired, next, running)) =>
      if running && next < |expired| { FinishOurs(e, s); }
    case (EndPass, InPass(now, expired, next, running)) => EndPassOurs(e, s);
    case (BeginTasks, _) => TaskStepOurs(e, s, step);
    case (NextTask, _) => TaskStepOurs(e, s, step);
    case (EndTasks, _) => TaskStepOurs(e, s, step);
    case _ =>
  }

  /** How a loop step moves the tasks: a new one joins the queue, the queue becomes the batch to be drained, or
      the next of the batch is executed. */
  lemma TaskFlow(e: nat -> nat, s: L.State, step: L.Step)
    requires s.mode.Draining? ==> s.mode.done <= |s.mode.tasks|
    ensures var s' := L.Apply(e, s, step);
            var before, after := Undrained(s.mode), Undrained(s'.mode);
            if step.BeginTasks? && s.mode.Idle?
            then before == [] && after == s.pending && s'.pending == [] && Invoked(s, step) == Empty
            else if step.NextTask? && before != []
            then Invoked(s, step) == before[0] && after == before[1..] && s'.pending == s.pending
            else
              && after == before && (!step.FireNext? ==> Invoked(s, step) == Empty)
              && s'.pending == s.pending + if step.Call? && step.action.RunInLoop? then [step.action.task] else []
  {
    hide L.AddTimer, L.ResetTimerFd, L.Extract, L.InsertTimer;
    match (step, s.mode)
    case (Call(a), _) => CallFlow(e, s, a);
    case (BeginPass(ok), Idle) => PassFlow(e, s, ok);
    case (EndCallback, InPass(_, expired, next, running)) =>
      if running && next < |expired| { FinishFlow(e, s); }
    case (EndPass, InPass(_, _, _, _)) => ResetFlow(e, s.(mode := L.Idle));
    case _ =>
  }

  lemma CallFlow(e: nat -> nat, s: L.State, a: L.Action)
    ensures var s' := L.Perform(e, s, a);
            s'.mode == s.mode && s'.pending == s.pending + if a.RunInLoop? then [a.task] else []
  {
    LT.CallsKeepMode(e, s, a);
  }

  lemma PassFlow(e: nat -> nat, s: L.State, ok: bool)
    requires s.mode.Idle?
    ensures var s' := L.BeginFiring(e, s, ok); s'.pending == s.pending && !s'.mode.Draining?
  {
  }

  lemma FinishFlow(e: nat -> nat, s: L.State)
    requires s.mode.InPass? && s.mode.next < |s.mode.expired|
    ensures var s' := L.FinishCallback(e, s); s'.pending == s.pending && s'.mode.InPass?
  {
  }

  lemma ResetFlow(e: nat -> nat, s: L.State)
    ensures L.ResetTimerFd(e, s).pending == s.pending && L.ResetTimerFd(e, s).mode == s.mode
  {
  }

  lemma NoReplayTasksStep(e: nat -> nat, s: L.State, step: L.Step)
    requires NoReplayTasks(s) && Foreign(s, step) && (s.mode.Draining? ==> s.mode.done <= |s.mode.tasks|)
    ensures NoReplayTasks(L.Apply(e, s, step)) && (!step.FireNext? ==> !IsReplay(Invoked(s, step)))
  {
    hide L.Apply, Invoked, Undrained;
    TaskFlow(e, s, step);
  }

  // ---------- The receiver's steps ----------

  ghost predicate LoopOk(s: L.State) {
    Inv(s) && OneShot(s) && NoReplayTasks(s)
  }

  lemma TickOk(e: nat -> nat, s: L.State)
    requires LoopOk(s)
    ensures LoopOk(L.Tick(e, s)) && Ours(L.Tick(e, s)) == Ours(s)
  {
    hide Inv;
    TickKeepsInv(e, s);
  }

  /** Scheduling a continuation adds one, whatever the delay, if it is not negative. */
  lemma ScheduleOurs(e: nat -> nat, s: L.State, delay: nat)
    requires LoopOk(s)
    ensures var s' := L.Perform(e, s, L.RunAfter(delay, ReplayBatch)); LoopOk(s') && |Ours(s')| == |Ours(s)| + 1
  {
    hide Inv, L.AddTimer;
    PerformKeepsInv(e, s, L.RunAfter(delay, ReplayBatch));
    AddOurs(e, s, delay, 0, ReplayBatch, false);
  }

  /** A timed step has to wait: there is a packet, the replay clock runs, and the packet's time is not reached at
      the next reading of the clock. */
  predicate Waits(e: nat -> nat, cfg: Config, w: World) {
    && Next(cfg.capture, w.rx.pos).AtPacket? && !w.rx.firstPacket
    && L.Tick(e, w.loop).clock < TargetTime(w.rx, Next(cfg.capture, w.rx.pos).frame.ts)
  }

  /** The timer of a continuation that waits for `target`.  The delay is in whole milliseconds, rounded down, so
      it expires less than a millisecond before the target, shifted by the time `lag` that passed until
      `runAfter` read the clock. */
  predicate WakesFor(t: Timer, target: int, lag: nat) {
    t.callback == ReplayBatch && !t.repeat && target - 1_000_000 < t.expiration - lag <= target
  }

  /** The packet that opens a replay is due at once. */
  lemma FirstIsDue(e: nat -> nat, w: World, ts: Timespec)
    requires w.rx.firstPacket
    ensures var aimed := Aim(e, w, ts); TargetTime(aimed.rx, ts) <= L.Tick(e, aimed.loop).clock
  {
  }

  lemma ScheduledTimer(e: nat -> nat, s: L.State, target: int)
    requires Inv(s) && s.clock < target
    ensures var s' := L.Perform(e, s, L.RunAfter((target - s.clock) / NS_PER_MS, ReplayBatch));
            s.nextId in s'.index && WakesFor(s'.index[s.nextId], target, e(s.readings))
  {
    hide Inv, L.AddTimer, QueueOk;
    LT.InvIndexable(s);
    LT.AddIndexes(e, s, (target - s.clock) / NS_PER_MS, 0, ReplayBatch, false);
  }

  /** A timed step plays the packet it finds unless it has to wait; and it schedules a continuation just when it
      has to wait, for the time of the packet. */
  lemma TimedStepOurs(e: nat -> nat, cfg: Config, w: World)
    requires cfg.mode == Timed && LoopOk(w.loop)
    ensures var r := InternalStep(e, cfg, w);
            && LoopOk(r.world.loop)
            && |Ours(r.world.loop)| == |Ours(w.loop)| + (if Waits(e, cfg, w) then 1 else 0)
            && (r.more <==> Next(cfg.capture, w.rx.pos).AtPacket? && !Waits(e, cfg, w))
            && (Waits(e, cfg, w) ==>
                  && w.loop.nextId in r.world.loop.index
                  && WakesFor(r.world.loop.index[w.loop.nextId],
                              TargetTime(w.rx, Next(cfg.capture, w.rx.pos).frame.ts), e(w.loop.readings + 1)))
  {
    hide LoopOk, Ours, L.Perform, L.Tick, Next, DispatchStep, TargetTime;
    match Next(cfg.capture, w.rx.pos)
    case Fault =>
    case AtEnd(_) =>
    case AtPacket(pos, frame, next) =>
      var aimed := Aim(e, w.(rx := w.rx.(pos := pos)), frame.ts);
      TickOk(e, w.loop);
      TickOk(e, aimed.loop);
      var now := aimed.(loop := L.Tick(e, aimed.loop));
      var target := TargetTime(aimed.rx, frame.ts);
      if w.rx.firstPacket {
        FirstIsDue(e, w.(rx := w.rx.(pos := pos)), frame.ts);
      } else {
        TargetFields(aimed.rx, w.rx, frame.ts);
      }
      if target > now.loop.clock {
        ScheduleOurs(e, now.loop, (target - now.loop.clock) / NS_PER_MS);
        assert Inv(now.loop) by { LoopOkInv(now.loop); }
        ScheduledTimer(e, now.loop, target);
        TickShape(e, w.loop);
      }
  }

  lemma TargetFields(a: Receiver, b: Receiver, ts: Timespec)
    requires a.wallStart == b.wallStart && a.pcapStart == b.pcapStart
    ensures TargetTime(a, ts) == TargetTime(b, ts)
  {
  }

  lemma LoopOkInv(s: L.State)
    requires LoopOk(s)
    ensures Inv(s)
  {
  }

  lemma TickShape(e: nat -> nat, s: L.State)
    ensures L.Tick(e, s).nextId == s.nextId && L.Tick(e, s).readings == s.readings + 1
  {
  }

  lemma {:induction false} StepUpToOurs(e: nat -> nat, cfg: Config, w: World, n: nat)
    requires cfg.mode == Timed && LoopOk(w.loop) && Safe(cfg.capture, w.rx.pos) && !w.rx.finished
    ensures var r := StepUpTo(e, cfg, w, n);
            && LoopOk(r.world.loop) && (r.more ==> !r.world.rx.finished)
            && |Ours(r.world.loop)| == |Ours(w.loop)| + if !r.more && !r.world.rx.finished then 1 else 0
    decreases n
  {
    hide LoopOk, Ours, InternalStep, Safe, Next, Decode;
    if n > 0 {
      SafeMeansNoFault(cfg.capture, w.rx.pos);
      TimedStepOurs(e, cfg, w);
      RT.StepShape(e, cfg, w);
      RT.StepOutcome(e, cfg, w);
      var r := InternalStep(e, cfg, w);
      if r.more { StepUpToOurs(e, cfg, r.world, n - 1); }
    }
  }

  // ---------- What a batch plays ----------

  /** From `w` to `w'` packets were played up to `limit`, and fewer only if after those the end was met, which has
      been noticed, or the next one has to be waited for. */
  ghost predicate PlaysDue(e: nat -> nat, cfg: Config, w: World, w': World, limit: nat) {
    && w.rx.played <= w'.rx.played
    && var k := |w'.rx.played| - |w.rx.played|;
       && k <= limit
       && (k < limit ==>
             var last := StepUpTo(e, cfg, w, k).world;
             && last.rx.played == w'.rx.played && last.loop.nextId == w.loop.nextId
             && if Next(cfg.capture, last.rx.pos).AtPacket? then Waits(e, cfg, last) else w'.rx.finished)
  }

  lemma StepKeepsId(e: nat -> nat, cfg: Config, w: World)
    requires InternalStep(e, cfg, w).more
    ensures InternalStep(e, cfg, w).world.loop.nextId == w.loop.nextId
  {
    hide DispatchStep, Next, TargetTime;
  }

  lemma {:induction false} StepUpToPlaysDue(e: nat -> nat, cfg: Config, w: World, n: nat)
    requires cfg.mode == Timed && LoopOk(w.loop) && Safe(cfg.capture, w.rx.pos)
    ensures var r := StepUpTo(e, cfg, w, n);
            && PlaysDue(e, cfg, w, r.world, n)
            && (r.more <==> |r.world.rx.played| == |w.rx.played| + n)
            && (r.more ==> r.world.loop.nextId == w.loop.nextId)
    decreases n
  {
    hide LoopOk, Ours, InternalStep, Safe, Next, Decode, Waits, TargetTime, L.Tick;
    if n > 0 {
      SafeMeansNoFault(cfg.capture, w.rx.pos);
      TimedStepOurs(e, cfg, w);
      RT.StepShape(e, cfg, w);
      RT.StepOutcome(e, cfg, w);
      RT.PlayedStep(e, cfg, w);
      var r := InternalStep(e, cfg, w);
      if r.more {
        StepKeepsId(e, cfg, w);
        StepUpToPlaysDue(e, cfg, r.world, n - 1);
      } else {
        assert StepUpTo(e, cfg, w, 0).world == w;
      }
    }
  }

  /** The limit of a timed batch: as many packets as the configuration says, and none if it says less than one. */
  function BatchLimit(cfg: Config): nat {
    if 0 < cfg.batchSize then cfg.batchSize else 0
  }

  /** A timed batch plays what is due, up to the batch size; and if it has not met the end, it has queued one
      continuation with the next id: without delay if the batch was full, and else for the time of the packet in
      front of which it stopped. */
  lemma TimedBatchIsExact(e: nat -> nat, cfg: Config, w: World)
    requires cfg.mode == Timed && LoopOk(w.loop) && Safe(cfg.capture, w.rx.pos) && !w.rx.finished
    ensures var w', id := ProcessBatch(e, cfg, w), w.loop.nextId;
            && PlaysDue(e, cfg, w, w', BatchLimit(cfg))
            && (!w'.rx.finished ==>
                  var k := |w'.rx.played| - |w.rx.played|;
                  var last := StepUpTo(e, cfg, w, k).world;
                  && id in w'.loop.index
                  && if k == BatchLimit(cfg)
                     then w'.loop.index[id] == Timer(L.Tick(e, last.loop).clock, 0, ReplayBatch, id, false)
                     else Next(cfg.capture, last.rx.pos).AtPacket? &&
                          WakesFor(w'.loop.index[id], TargetTime(last.rx, Next(cfg.capture, last.rx.pos).frame.ts),
                                   e(last.loop.readings + 1)))
  {
    hide LoopOk, Ours, StepUpTo, Safe, L.Perform, Next, Waits, WakesFor, TargetTime, Decode;
    var n := BatchLimit(cfg);
    StepUpToPlaysDue(e, cfg, w, n);
    StepUpToOurs(e, cfg, w, n);
    var r := StepUpTo(e, cfg, w, n);
    if r.more {
      ImmediateTimer(e, r.world.loop);
    } else if !r.world.rx.finished {
      var k := |r.world.rx.played| - |w.rx.played|;
      LastStep(e, cfg, w, n, k);
      TimedStepOurs(e, cfg, StepUpTo(e, cfg, w, k).world);
    }
  }

  lemma ImmediateTimer(e: nat -> nat, s: L.State)
    requires LoopOk(s)
    ensures var s' := L.Perform(e, s, L.RunAfter(0, ReplayBatch));
            s.nextId in s'.index && s'.index[s.nextId] == Timer(L.Tick(e, s).clock, 0, ReplayBatch, s.nextId, false)
  {
    hide Inv, L.AddTimer, QueueOk;
    LT.InvIndexable(s);
    LT.AddIndexes(e, s, 0, 0, ReplayBatch, false);
  }

  /** A run of steps that stopped early stopped with the step after those that played. */
  lemma {:induction false} LastStep(e: nat -> nat, cfg: Config, w: World, n: nat, k: nat)
    requires cfg.mode == Timed && LoopOk(w.loop) && Safe(cfg.capture, w.rx.pos) && k < n
    requires |StepUpTo(e, cfg, w, n).world.rx.played| == |w.rx.played| + k && !StepUpTo(e, cfg, w, n).more
    ensures var last := StepUpTo(e, cfg, w, k).world;
            StepUpTo(e, cfg, w, n) == InternalStep(e, cfg, last) && LoopOk(last.loop)
    decreases n
  {
    hide LoopOk, Ours, InternalStep, Safe, Next, Decode, Waits, TargetTime, L.Tick;
    var r := InternalStep(e, cfg, w);
    TimedStepOurs(e, cfg, w);
    RT.StepOutcome(e, cfg, w);
    RT.PlayedStep(e, cfg, w);
    if r.more {
      StepUpToPlaysDue(e, cfg, r.world, n - 1);
      LastStep(e, cfg, r.world, n - 1, k - 1);
    } else {
      assert StepUpTo(e, cfg, w, 0).world == w;
    }
  }

  /** A batch leaves one more continuation scheduled than it found, unless it reached the end. */
  lemma BatchOurs(e: nat -> nat, cfg: Config, w: World)
    requires cfg.mode == Timed && LoopOk(w.loop) && Safe(cfg.capture, w.rx.pos) && !w.rx.finished
    ensures var w' := ProcessBatch(e, cfg, w);
            LoopOk(w'.loop) && |Ours(w'.loop)| == |Ours(w.loop)| + if w'.rx.finished then 0 else 1
  {
    hide LoopOk, Ours, StepUpTo, Safe, L.Perform;
    StepUpToOurs(e, cfg, w, StopLimit(cfg));
    var r := StepUpTo(e, cfg, w, StopLimit(cfg));
    ScheduleOurs(e, r.world.loop, 0);
  }

  // ---------- Every run ----------

  /** One continuation is scheduled if the replay is unfinished, and none if it has finished. */
  ghost predicate OneContinuation(cfg: Config, w: World) {
    && LoopOk(w.loop) && Safe(cfg.capture, w.rx.pos)
    && |Ours(w.loop)| == if w.rx.finished then 0 else 1
  }

  /** `start` schedules the first continuation. */
  lemma StartSchedulesOne(e: nat -> nat, cfg: Config, w: World)
    requires cfg.mode == Timed && LoopOk(w.loop) && Ours(w.loop) == {}
    requires Safe(cfg.capture, w.rx.pos) && !w.rx.finished
    ensures OneContinuation(cfg, StartReplay(e, cfg, w))
  {
    hide LoopOk, Safe, L.Perform, Ours;
    ScheduleOurs(e, w.loop, 0);
  }

  /** `start`, exactly: the replay clock is to be set anew, and nothing else about the receiver changes; in step mode
      the loop is left alone, and else a continuation without delay is queued. */
  lemma StartIsExact(e: nat -> nat, cfg: Config, w: World)
    requires Inv(w.loop)
    ensures var w', s := StartReplay(e, cfg, w), w.loop;
            && w'.rx == w.rx.(firstPacket := true)
            && if cfg.mode == Manual then w'.loop == s
               else
                 var now := s.clock + e(s.readings);
                 && w'.loop.index == s.index[s.nextId := Timer(now, 0, ReplayBatch, s.nextId, false)]
                 && w'.loop.pending == s.pending && w'.loop.mode == s.mode
  {
    hide Inv, L.AddTimer, QueueOk;
    LT.InvIndexable(w.loop);
    LT.AddIndexes(e, w.loop, 0, 0, ReplayBatch, false);
  }

  /** The step fires a continuation that reaches the end, or that finds it reached: no other one follows. */
  predicate Retires(e: nat -> nat, cfg: Config, w: World, step: WorldStep) {
    step.LoopStep? && Invoked(w.loop, step.step) == ReplayBatch && Apply(e, cfg, w, step).rx.finished
  }

  /** A step of the loop that is not the replay's own doing, a manual step, or a subscription. */
  ghost predicate MayOccur(w: World, step: WorldStep) {
    step.LoopStep? ==> Foreign(w.loop, step.step)
  }

  /** The balance of scheduled continuations over one step. */
  lemma StepBalance(e: nat -> nat, cfg: Config, w: World, step: WorldStep)
    requires cfg.mode == Timed && LoopOk(w.loop) && Safe(cfg.capture, w.rx.pos) && MayOccur(w, step)
    ensures var w' := Apply(e, cfg, w, step);
            && LoopOk(w'.loop) && Safe(cfg.capture, w'.rx.pos)
            && |Ours(w'.loop)| + (if Retires(e, cfg, w, step) then 1 else 0) ==
               |Ours(w.loop)| + (if step.ManualStep? && Waits(e, cfg, w) then 1 else 0)
            && (w.rx.finished ==> w'.rx.finished)
            && (w'.rx.finished ==> w.rx.finished || step.ManualStep? || Retires(e, cfg, w, step))
  {
    hide LoopOk, Ours, Safe, L.Apply, StepUpTo, ProcessBatchFlood, Invoked, Foreign, InternalStep, Waits, Decode;
    match step
    case SubscribeStep(_, _, _) =>
    case ManualStep =>
      TimedStepOurs(e, cfg, w);
      RT.StepOutcome(e, cfg, w);
    case LoopStep(s) =>
      LoopOkStep(e, w.loop, s);
      var w' := w.(loop := L.Apply(e, w.loop, s));
      if Invoked(w.loop, s) == ReplayBatch && !w.rx.finished {
        BatchOurs(e, cfg, w');
        BatchKeepsSafe(e, cfg, w');
      }
  }

  lemma LoopOkStep(e: nat -> nat, s: L.State, step: L.Step)
    requires LoopOk(s) && Foreign(s, step)
    ensures LoopOk(L.Apply(e, s, step)) && Invoked(s, step) != ReplayFlood
    ensures Invoked(s, step) == ReplayBatch ==> |Ours(s)| == |Ours(L.Apply(e, s, step))| + 1
    ensures Invoked(s, step) != ReplayBatch ==> Ours(L.Apply(e, s, step)) == Ours(s)
  {
    hide Inv, Ours, OneShot, NoReplayTasks, L.Apply, Invoked, Foreign;
    StepKeepsInv(e, s, step);
    ForeignStepOurs(e, s, step);
    LT.InvIndexable(s);
    NoReplayTasksStep(e, s, step);
  }

  lemma BatchKeepsSafe(e: nat -> nat, cfg: Config, w: World)
    requires Safe(cfg.capture, w.rx.pos)
    ensures Safe(cfg.capture, ProcessBatch(e, cfg, w).rx.pos)
  {
    hide Safe, InternalStep, ProcessBatch, Decode;
    var P := (v: World) => Safe(cfg.capture, v.rx.pos);
    forall v: World | P(v) ensures P(InternalStep(e, cfg, v).world) {
      RT.StepOutcome(e, cfg, v);
    }
    RT.BatchKeeps(e, cfg, w, P);
  }

  ghost predicate ForeignRun(e: nat -> nat, cfg: Config, w: World, steps: seq<WorldStep>) {
    forall i :: 0 <= i < |steps| ==> MayOccur(Run(e, cfg, w, steps[..i]), steps[i])
  }

  lemma ForeignPrefix(e: nat -> nat, cfg: Config, w: World, steps: seq<WorldStep>)
    requires ForeignRun(e, cfg, w, steps) && steps != []
    ensures ForeignRun(e, cfg, w, steps[..|steps| - 1])
    ensures MayOccur(Run(e, cfg, w, steps[..|steps| - 1]), steps[|steps| - 1])
  {
    hide MayOccur, Run;
    var init := steps[..|steps| - 1];
    forall i | 0 <= i < |init| ensures MayOccur(Run(e, cfg, w, init[..i]), init[i]) {
      assert init[..i] == steps[..i];
    }
  }

  /** How many manual steps of a run have stopped in front of a packet. */
  function ManualWaits(e: nat -> nat, cfg: Config, w: World, steps: seq<WorldStep>): nat {
    if steps == [] then 0
    else
      var init, last := steps[..|steps| - 1], steps[|steps| - 1];
      ManualWaits(e, cfg, w, init) + if last.ManualStep? && Waits(e, cfg, Run(e, cfg, w, init)) then 1 else 0
  }

  /** How many continuations of a run have fired without successor. */
  function Retired(e: nat -> nat, cfg: Config, w: World, steps: seq<WorldStep>): nat {
    if steps == [] then 0
    else
      var init, last := steps[..|steps| - 1], steps[|steps| - 1];
      Retired(e, cfg, w, init) + if Retires(e, cfg, Run(e, cfg, w, init), last) then 1 else 0
  }

  /** The balance over every run: each manual step that has to wait adds a continuation, each that fires at the
      end takes one away, and nothing else changes their number; as long as the end has not been reported,
      none is taken away. */
  lemma {:induction false} ContinuationBalance(e: nat -> nat, cfg: Config, w: World, steps: seq<WorldStep>)
    requires cfg.mode == Timed && LoopOk(w.loop) && Safe(cfg.capture, w.rx.pos) && ForeignRun(e, cfg, w, steps)
    ensures var w' := Run(e, cfg, w, steps);
            && LoopOk(w'.loop) && Safe(cfg.capture, w'.rx.pos)
            && |Ours(w'.loop)| + Retired(e, cfg, w, steps) == |Ours(w.loop)| + ManualWaits(e, cfg, w, steps)
            && (!w'.rx.finished ==> Retired(e, cfg, w, steps) == 0 && !w.rx.finished)
    decreases |steps|
  {
    hide LoopOk, Safe, Ours, Apply, MayOccur, Waits, ForeignRun;
    if steps != [] {
      var init := steps[..|steps| - 1];
      ForeignPrefix(e, cfg, w, steps);
      ContinuationBalance(e, cfg, w, init);
      StepBalance(e, cfg, Run(e, cfg, w, init), steps[|steps| - 1]);
    }
  }

  /** In every run of a timed replay that was started once, an unfinished replay has as many continuations
      scheduled as one and the manual steps that had to wait; so it never runs dry, and stepping it by hand
      makes it multiply. */
  lemma OneAndManualWaits(e: nat -> nat, cfg: Config, w: World, steps: seq<WorldStep>)
    requires cfg.mode == Timed && OneContinuation(cfg, w) && ForeignRun(e, cfg, w, steps)
    requires !Run(e, cfg, w, steps).rx.finished
    ensures |Ours(Run(e, cfg, w, steps).loop)| == 1 + ManualWaits(e, cfg, w, steps)
  {
    hide LoopOk, Safe, Ours, Run, ForeignRun;
    ContinuationBalance(e, cfg, w, steps);
  }

  /** Liveness: in every run of a timed replay that was started once and is not stepped by hand, whatever the
      other clients do and whoever subscribes, an unfinished replay has exactly one continuation scheduled,
      and a finished one has none. */
  lemma {:induction false} AlwaysOneContinuation(e: nat -> nat, cfg: Config, w: World, steps: seq<WorldStep>)
    requires cfg.mode == Timed && OneContinuation(cfg, w) && ForeignRun(e, cfg, w, steps)
    requires forall i :: 0 <= i < |steps| ==> !steps[i].ManualStep?
    ensures OneContinuation(cfg, Run(e, cfg, w, steps))
    decreases |steps|
  {
    hide LoopOk, Safe, Ours, Apply, MayOccur, ForeignRun, Waits;
    if steps != [] {
      var init := steps[..|steps| - 1];
      ForeignPrefix(e, cfg, w, steps);
      AlwaysOneContinuation(e, cfg, w, init);
      StepBalance(e, cfg, Run(e, cfg, w, init), steps[|steps| - 1]);
    }
  }

  /** Between passes an unfinished timed replay is going to be woken: a continuation is queued, and the timer
      descriptor is armed no later than that continuation's expiration. */
  lemma UnfinishedIsWoken(e: nat -> nat, cfg: Config, w: World, steps: seq<WorldStep>)
    requires cfg.mode == Timed && OneContinuation(cfg, w) && ForeignRun(e, cfg, w, steps)
    requires var w' := Run(e, cfg, w, steps); !w'.rx.finished && !w'.loop.mode.InPass?
    ensures var s := Run(e, cfg, w, steps).loop;
            exists t :: t in s.timers && t.callback == ReplayBatch && s.armed.Some? && s.armed.value <= t.expiration
  {
    hide LoopOk, Safe, Ours, Run, ForeignRun, ManualWaits;
    ContinuationBalance(e, cfg, w, steps);
    QueuedIsWoken(Run(e, cfg, w, steps).loop);
  }

  lemma QueuedIsWoken(s: L.State)
    requires LoopOk(s) && |Ours(s)| > 0 && !s.mode.InPass?
    ensures exists t :: t in s.timers && t.callback == ReplayBatch && s.armed.Some? && s.armed.value <= t.expiration
  {
    hide Descends, PlaceOk;
    assert Ours(s) != {};
    var id :| id in Ours(s);
    var t := s.index[id];
    assert t in s.timers;
    LT.FirstIsEarliest(s.timers, t);
  }
}
