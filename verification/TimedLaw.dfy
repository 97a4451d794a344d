/** How much a timed replay plays, in every run: every continuation that fires plays what is due, so the replay
    advances unless it has to wait. */
module TimedLaw {
  import opened TimerQueue
  import opened Frames
  import opened Captures
  import opened ReplayModel
  import L = LoopModel
  import RT = ReplayTheorems
  import opened ReplayContinuations

  /** The world in which an invoked callback begins. */
  function AtCallback(e: nat -> nat, w: World, step: L.Step): World {
    w.(loop := L.Apply(e, w.loop, step))
  }

  /** A continuation that fires on an unfinished replay plays what is due, up to the batch size. */
  lemma FiringPlaysDue(e: nat -> nat, cfg: Config, w: World, step: L.Step)
    requires cfg.mode == Timed && LoopOk(w.loop) && Safe(cfg.capture, w.rx.pos) && !w.rx.finished
    requires Foreign(w.loop, step) && Invoked(w.loop, step) == ReplayBatch
    ensures PlaysDue(e, cfg, AtCallback(e, w, step), Apply(e, cfg, w, LoopStep(step)), BatchLimit(cfg))
  {
    hide LoopOk, Safe, Foreign, L.Apply, Invoked, ProcessBatch, PlaysDue, Ours;
    LoopOkStep(e, w.loop, step);
    TimedBatchIsExact(e, cfg, AtCallback(e, w, step));
  }

  /** The step fires a continuation that finds its packet not due. */
  predicate Idles(e: nat -> nat, cfg: Config, w: World, step: WorldStep) {
    RT.InvokedBy(w, step) == ReplayBatch && Waits(e, cfg, AtCallback(e, w, step.step))
  }

  function IdleFirings(e: nat -> nat, cfg: Config, w: World, steps: seq<WorldStep>): nat {
    if steps == [] then 0
    else
      var init, last := steps[..|steps| - 1], steps[|steps| - 1];
      IdleFirings(e, cfg, w, init) + if Idles(e, cfg, Run(e, cfg, w, init), last) then 1 else 0
  }

  /** What one step plays, if the replay is unfinished after it: a continuation between one packet and a batch, or none
      if it has to wait; a manual step one packet, or none if it has to wait; anything else nothing. */
  lemma WorkStep(e: nat -> nat, cfg: Config, w: World, step: WorldStep)
    requires cfg.mode == Timed && LoopOk(w.loop) && Safe(cfg.capture, w.rx.pos) && MayOccur(w, step)
    requires !w.rx.finished && !Apply(e, cfg, w, step).rx.finished
    ensures var grown := |Apply(e, cfg, w, step).rx.played| - |w.rx.played|;
            if step.ManualStep? then grown == if Waits(e, cfg, w) then 0 else 1
            else if RT.InvokedBy(w, step) == ReplayBatch
            then (if Idles(e, cfg, w, step) || cfg.batchSize < 1 then grown == 0 else 1 <= grown <= cfg.batchSize)
            else grown == 0
  {
    hide LoopOk, Safe, L.Apply, Invoked, Waits, InternalStep, Foreign, ProcessBatchFlood, Ours, Decode, Next;
    hide StepUpTo, ProcessBatch;
    match step
    case SubscribeStep(_, _, _) =>
    case ManualStep =>
      TimedStepOurs(e, cfg, w);
      RT.PlayedStep(e, cfg, w);
      RT.StepOutcome(e, cfg, w);
      RT.NextDecides(cfg.capture, w.rx.pos);
    case LoopStep(s) =>
      LoopOkStep(e, w.loop, s);
      if Invoked(w.loop, s) == ReplayBatch {
        var w1 := AtCallback(e, w, s);
        FiringPlaysDue(e, cfg, w, s);
        assert StepUpTo(e, cfg, w1, 0).world == w1 by { NoSteps(e, cfg, w1); }
        if Waits(e, cfg, w1) { BatchWaits(e, cfg, w1); }
      }
  }

  lemma NoSteps(e: nat -> nat, cfg: Config, w: World)
    ensures StepUpTo(e, cfg, w, 0) == StepResult(w, true)
  {
  }

  /** A batch whose first packet is not due plays nothing. */
  lemma BatchWaits(e: nat -> nat, cfg: Config, w: World)
    requires cfg.mode == Timed && LoopOk(w.loop) && !w.rx.finished && Waits(e, cfg, w)
    ensures ProcessBatch(e, cfg, w).rx.played == w.rx.played
  {
    hide LoopOk, InternalStep, Next, Waits, Ours;
    TimedStepOurs(e, cfg, w);
    RT.PlayedStep(e, cfg, w);
    NoSteps(e, cfg, w);
  }

  /** The work of a timed replay.  In every run with loop steps of other clients, manual steps and subscriptions, as
      long as the end is not met: every continuation that fires plays at least one packet and at most a batch of
      them, unless it finds its packet not due, and every manual step plays one, unless it finds it not due; and
      nothing else plays any.  With a batch size below one the continuations play nothing at all. */
  lemma {:induction false} TimedWork(e: nat -> nat, cfg: Config, w: World, steps: seq<WorldStep>)
    requires cfg.mode == Timed && LoopOk(w.loop) && Safe(cfg.capture, w.rx.pos) && ForeignRun(e, cfg, w, steps)
    requires !Run(e, cfg, w, steps).rx.finished
    ensures var played := |Run(e, cfg, w, steps).rx.played| - |w.rx.played|;
            var manual := RT.ManualSteps(steps) - ManualWaits(e, cfg, w, steps);
            var firings := RT.Invocations(e, cfg, w, steps, ReplayBatch) - IdleFirings(e, cfg, w, steps);
            && 0 <= manual && 0 <= firings
            && if cfg.batchSize < 1 then played == manual
               else manual + firings <= played <= manual + firings * cfg.batchSize
    decreases |steps|
  {
    hide LoopOk, Safe, Apply, MayOccur, Waits, ForeignRun, Idles, RT.InvokedBy, Ours;
    if steps != [] {
      var init, last := steps[..|steps| - 1], steps[|steps| - 1];
      var w1 := Run(e, cfg, w, init);
      ForeignPrefix(e, cfg, w, steps);
      RT.UnfinishedBefore(e, cfg, w1, last);
      TimedWork(e, cfg, w, init);
      ContinuationBalance(e, cfg, w, init);
      WorkStep(e, cfg, w1, last);
      assert last.ManualStep? ==> RT.InvokedBy(w1, last) != ReplayBatch by { OnlyLoopStepsInvoke(w1, last); }
      assert Idles(e, cfg, w1, last) ==> RT.InvokedBy(w1, last) == ReplayBatch by { OnlyFiringsIdle(e, cfg, w1, last); }
      var before := RT.Invocations(e, cfg, w, init, ReplayBatch) - IdleFirings(e, cfg, w, init);
      OneMore(before, cfg.batchSize);
    }
  }

  lemma OnlyLoopStepsInvoke(w: World, step: WorldStep)
    ensures !step.LoopStep? ==> RT.InvokedBy(w, step) == Empty
  {
  }

  lemma OnlyFiringsIdle(e: nat -> nat, cfg: Config, w: World, step: WorldStep)
    ensures Idles(e, cfg, w, step) ==> RT.InvokedBy(w, step) == ReplayBatch
  {
  }

  lemma OneMore(n: int, d: int)
    ensures (n + 1) * d == n * d + d
  {
  }
}
