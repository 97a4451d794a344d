/** The replay engine on top of the event loop: one cursor, advanced by manual steps and by the
    continuations that the receiver schedules for itself. */
module ReplayModel {
  import opened Results
  import opened Bytes
  import opened TimerQueue
  import opened Frames
  import opened Captures
  import L = LoopModel

  datatype ReplayMode = Timed | Flood | Manual

  datatype Config = Config(capture: Capture, mode: ReplayMode, batchSize: int)

  /** A frame that was handed to the parser, and the clock and the port table at that moment. */
  datatype Played = Played(frame: Frame, at: nat, table: Table)

  datatype Receiver = Receiver(
    pos: Position, finished: bool,
    firstPacket: bool, pcapStart: Timespec, wallStart: nat,
    dispatcher: Dispatcher, played: seq<Played>)

  datatype World = World(loop: L.State, rx: Receiver)

  datatype StepResult = StepResult(world: World, more: bool)

  const FLOOD_LIMIT: nat := 20000
  const BATCH_LIMIT: nat := 10000

  function Nanos(ts: Timespec): int {
    ts.sec * 1_000_000_000 + ts.nsec
  }

  /** The receiver once a first packet has been seen: replay time starts now, with that packet. */
  function Aim(e: nat -> nat, w: World, ts: Timespec): World {
    if !w.rx.firstPacket then w
    else
      var loop := L.Tick(e, w.loop);
      World(loop, w.rx.(firstPacket := false, pcapStart := ts, wallStart := loop.clock))
  }

  /** `calculateTargetTimeHighRes` at normal speed: the difference in seconds and nanoseconds, with a borrow. */
  function TargetTime(rx: Receiver, ts: Timespec): int {
    var sec, ns := ts.sec - rx.pcapStart.sec, ts.nsec - rx.pcapStart.nsec;
    if ns < 0 then rx.wallStart + (sec - 1) * NS_PER_SEC + (ns + NS_PER_SEC)
    else rx.wallStart + sec * NS_PER_SEC + ns
  }

  /** Parse, dispatch, and move the cursor past the packet. */
  function Play(cfg: Config, w: World, frame: Frame, next: Position): World {
    var entry := Played(frame, w.loop.clock, w.rx.dispatcher.table);
    w.(rx := w.rx.(pos := next, played := w.rx.played + [entry],
                   dispatcher := DispatchStep(cfg.capture.linkType, w.rx.dispatcher, Parse(frame))))
  }

  /** The wait in front of a packet that is not due: the cursor stays, a continuation is scheduled. */
  function Wait(e: nat -> nat, w: World, target: int): World
    requires w.loop.clock < target
  {
    w.(loop := L.Perform(e, w.loop, L.RunAfter((target - w.loop.clock) / NS_PER_MS, ReplayBatch)))
  }

  /** `internalStep`. */
  function InternalStep(e: nat -> nat, cfg: Config, w: World): StepResult {
    match Next(cfg.capture, w.rx.pos)
    case Fault => StepResult(w, false)
    case AtEnd(pos) => StepResult(w.(rx := w.rx.(pos := pos, finished := true)), false)
    case AtPacket(pos, frame, next) =>
      var found := w.(rx := w.rx.(pos := pos));
      if cfg.mode != Timed then StepResult(Play(cfg, found, frame, next), true)
      else
        var aimed := Aim(e, found, frame.ts);
        var target := TargetTime(aimed.rx, frame.ts);
        var now := aimed.(loop := L.Tick(e, aimed.loop));
        if target > now.loop.clock then StepResult(Wait(e, now, target), false)
        else StepResult(Play(cfg, now, frame, next), true)
  }

  /** The common shape of the batch loops: up to `n` steps, stopping at the first that fails. */
  function StepUpTo(e: nat -> nat, cfg: Config, w: World, n: nat): StepResult
    decreases n
  {
    if n == 0 then StepResult(w, true)
    else
      var r := InternalStep(e, cfg, w);
      if !r.more then r else StepUpTo(e, cfg, r.world, n - 1)
  }

  function Defer(e: nat -> nat, w: World, task: Callback): World {
    w.(loop := L.Perform(e, w.loop, L.RunInLoop(task)))
  }

  function ProcessBatchFlood(e: nat -> nat, cfg: Config, w: World): World {
    var r := StepUpTo(e, cfg, w, FLOOD_LIMIT);
    if !r.more || r.world.rx.finished then r.world else Defer(e, r.world, ReplayFlood)
  }

  function StopLimit(cfg: Config): nat {
    if cfg.mode == Flood then BATCH_LIMIT else if cfg.batchSize < 0 then 0 else cfg.batchSize
  }

  /** After a batch that did not reach the end, the next one: as a task if flooding, else as a timer. */
  function Continue(e: nat -> nat, cfg: Config, w: World): World {
    match cfg.mode
    case Flood => Defer(e, w, ReplayBatch)
    case Timed => w.(loop := L.Perform(e, w.loop, L.RunAfter(0, ReplayBatch)))
    case Manual => w
  }

  function ProcessBatch(e: nat -> nat, cfg: Config, w: World): World {
    if w.rx.finished then w
    else
      var flooded := if cfg.mode == Flood then ProcessBatchFlood(e, cfg, w) else w;
      var r := StepUpTo(e, cfg, flooded, StopLimit(cfg));
      if !r.more || r.world.rx.finished then r.world else Continue(e, cfg, r.world)
  }

  /** `start`. */
  function StartReplay(e: nat -> nat, cfg: Config, w: World): World {
    var rx := w.rx.(firstPacket := true);
    if cfg.mode == Manual then w.(rx := rx)
    else World(L.Perform(e, w.loop, L.RunAfter(0, ReplayBatch)), rx)
  }

  /** `rewind`. */
  function Rewind(cfg: Config, w: World): World {
    w.(rx := w.rx.(pos := Rewound(cfg.capture, w.rx.pos), finished := false, firstPacket := true))
  }

  // ---------- The whole system ----------

  /** Everything that can happen between two calls of `start` or `rewind`: a step of the loop, which may be
      any client's doing; a manual `step`; a subscription. */
  datatype WorldStep =
    | LoopStep(step: L.Step)
    | ManualStep
    | SubscribeStep(port: U16, context: nat, handler: nat)

  /** The callback or task that a loop step invokes. */
  function Invoked(s: L.State, step: L.Step): Callback {
    match (step, s.mode)
    case (FireNext, InPass(_, expired, next, running)) =>
      if running || next >= |expired| then Empty else expired[next].callback
    case (NextTask, Draining(tasks, done)) => if done >= |tasks| then Empty else tasks[done]
    case _ => Empty
  }

  /** The receiver's own continuations; a client's callback acts through further loop steps. */
  function RunCallback(e: nat -> nat, cfg: Config, w: World, cb: Callback): World {
    match cb
    case ReplayBatch => ProcessBatch(e, cfg, w)
    case ReplayFlood => ProcessBatchFlood(e, cfg, w)
    case _ => w
  }

  function Apply(e: nat -> nat, cfg: Config, w: World, step: WorldStep): World {
    match step
    case LoopStep(s) => RunCallback(e, cfg, w.(loop := L.Apply(e, w.loop, s)), Invoked(w.loop, s))
    case ManualStep => InternalStep(e, cfg, w).world
    case SubscribeStep(port, context, handler) =>
      var op := Subscribe(port, context, handler);
      w.(rx := w.rx.(dispatcher := DispatchStep(cfg.capture.linkType, w.rx.dispatcher, op)))
  }

  function Run(e: nat -> nat, cfg: Config, w: World, steps: seq<WorldStep>): World
    decreases |steps|
  {
    if steps == [] then w
    else Apply(e, cfg, Run(e, cfg, w, steps[..|steps| - 1]), steps[|steps| - 1])
  }
}
