/** The event loop as a state machine over its small steps.

    A callback is not executed atomically: between `FireNext` and `EndCallback`, and between two
    `NextTask` steps, any sequence of `Call` steps may occur.  A property proved for every run of this
    machine therefore holds whatever the callbacks add or cancel, and in whatever order they do it.

    `e(k)` is the time that passes before the k-th reading of the monotonic clock. */
module LoopModel {
  import opened Results
  import opened TimerQueue

  /** One turn of a timer in a firing pass: the timer as it was extracted, and the clock at that moment. */
  datatype Firing = Firing(timer: Timer, at: nat)

  datatype Mode =
    | Idle
    | InPass(now: nat, expired: seq<Timer>, next: nat, running: bool)
    | Draining(tasks: seq<Callback>, done: nat)

  /** What happened so far; no step depends on it. */
  datatype History = History(
    created: map<nat, Timer>, cancelled: set<nat>, fired: seq<Firing>,
    enqueued: seq<Callback>, executed: seq<Callback>)

  /** `armed` is the instant the timer descriptor is set to.  The setting is one-shot, so the
      descriptor holds an unread tick exactly when that instant has been reached. */
  datatype State = State(
    clock: nat, readings: nat,
    nextId: nat, timers: seq<Timer>, index: map<nat, Timer>, armed: Option<nat>,
    pending: seq<Callback>, mode: Mode, hist: History)

  /** The calls that client code makes on the loop, and its readings of the clock. */
  datatype Action =
    | RunAfter(delay: int, cb: Callback)
    | RunEvery(interval: int, cb: Callback)
    | CancelTimer(id: nat)
    | RunInLoop(task: Callback)
    | ReadClock

  datatype Step =
    | Call(action: Action)
    | BeginPass(readSucceeds: bool)
    | FireNext
    | EndCallback
    | EndPass
    | BeginTasks
    | NextTask
    | EndTasks

  /** A loop constructed when the monotonic clock shows `clock`. */
  function Init(clock: nat): State {
    State(clock, 0, 1, [], map[], None, [], Idle, History(map[], {}, [], [], []))
  }

  /** `Clock::now()`. */
  function Tick(e: nat -> nat, s: State): State {
    s.(clock := s.clock + e(s.readings), readings := s.readings + 1)
  }

  /** An `itimerspec` value with no interval. */
  datatype TimerSpec = TimerSpec(sec: nat, nsec: nat)

  /** The value that `resetTimerFd` computes: a distance from now, although it is passed as absolute. */
  function SpecFor(expiration: nat, now: nat): TimerSpec {
    if expiration <= now then TimerSpec(0, 1)
    else TimerSpec((expiration - now) / NS_PER_SEC, (expiration - now) % NS_PER_SEC)
  }

  /** `timerfd_settime`: zero disarms, anything else arms at that instant; unread ticks are dropped. */
  function SetTime(spec: TimerSpec): Option<nat> {
    if spec.sec == 0 && spec.nsec == 0 then None else Some(spec.sec * 1_000_000_000 + spec.nsec)
  }

  function ResetTimerFd(e: nat -> nat, s: State): State {
    if s.timers == [] then s.(armed := None)
    else
      var s1 := Tick(e, s);
      s1.(armed := SetTime(SpecFor(s1.timers[0].expiration, s1.clock)))
  }

  /** A timer has been entered in the ordered set and in the index. */
  function Queued(s: State, t: Timer): State {
    var element := SetElement(s.timers, t);
    s.(timers := SetInsert(s.timers, t), index := s.index[element.id := element])
  }

  function InsertTimer(e: nat -> nat, s: State, t: Timer): State {
    var earliestChanged := s.timers == [] || t.expiration < s.timers[0].expiration;
    if earliestChanged then ResetTimerFd(e, Queued(s, t)) else Queued(s, t)
  }

  /** A new id has been issued for `t`, which is not queued yet. */
  function Issued(s: State, t: Timer): State {
    s.(nextId := s.nextId + 1, hist := s.hist.(created := s.hist.created[t.id := t]))
  }

  /** The common part of `runAfter` and `runEvery`, after their argument checks. */
  function AddTimer(e: nat -> nat, s: State, delay: nat, interval: nat, cb: Callback, repeat: bool): State {
    var s1 := Tick(e, s);
    var t := Timer(s1.clock + delay * NS_PER_MS, interval, cb, s1.nextId, repeat);
    InsertTimer(e, Issued(s1, t), t)
  }

  /** The timer of a queued id has been removed from the ordered set and from the index. */
  function Erased(s: State, id: nat): State
    requires id in s.index
  {
    s.(timers := SetErase(s.timers, s.index[id]), index := s.index - {id},
       hist := s.hist.(cancelled := s.hist.cancelled + {id}))
  }

  function Perform(e: nat -> nat, s: State, a: Action): State {
    match a
    case RunAfter(delay, cb) => if delay < 0 then s else AddTimer(e, s, delay, 0, cb, false)
    case RunEvery(interval, cb) => if interval <= 0 then s else AddTimer(e, s, interval, interval, cb, true)
    case CancelTimer(id) => if id !in s.index then s else ResetTimerFd(e, Erased(s, id))
    case RunInLoop(task) =>
      s.(pending := s.pending + [task], hist := s.hist.(enqueued := s.hist.enqueued + [task]))
    case ReadClock => Tick(e, s)
  }

  predicate Readable(s: State) {
    s.armed.Some? && s.armed.value <= s.clock
  }

  /** Everything that has expired at the clock's present reading leaves the queue for a batch. */
  function Extract(s: State): State {
    var k := CountDue(s.timers, s.clock);
    s.(timers := s.timers[k..], index := s.index - (set t | t in s.timers[..k] :: t.id),
       mode := InPass(s.clock, s.timers[..k], 0, false))
  }

  /** The start of `handleTimerRead`: the read, the sampled now, the extraction of what has expired. */
  function BeginFiring(e: nat -> nat, s: State, readSucceeds: bool): State {
    var atRead := Tick(e, s);
    if !readSucceeds || !Readable(atRead) then atRead
    else Extract(Tick(e, atRead.(armed := None)))
  }

  /** The callback of the next timer of the batch is invoked. */
  function StartCallback(s: State): State
    requires s.mode.InPass? && s.mode.next < |s.mode.expired|
  {
    var firing := Firing(s.mode.expired[s.mode.next], s.clock);
    s.(mode := s.mode.(running := true), hist := s.hist.(fired := s.hist.fired + [firing]))
  }

  /** The pass has moved on from its running timer, which is not rescheduled yet. */
  function Passed(s: State): State
    requires s.mode.InPass?
  {
    s.(mode := s.mode.(next := s.mode.next + 1, running := false))
  }

  /** The part of the callback loop that follows the callback: rescheduling if the timer repeats. */
  function FinishCallback(e: nat -> nat, s: State): State
    requires s.mode.InPass? && s.mode.next < |s.mode.expired|
  {
    var t := s.mode.expired[s.mode.next];
    if t.repeat then InsertTimer(e, Passed(s), t.Advanced()) else Passed(s)
  }

  /** One step; a step that the loop's control flow does not allow here changes nothing. */
  function Apply(e: nat -> nat, s: State, step: Step): State {
    match (step, s.mode)
    case (Call(a), _) => Perform(e, s, a)
    case (BeginPass(ok), Idle) => BeginFiring(e, s, ok)
    case (FireNext, InPass(now, expired, next, running)) =>
      if running || next >= |expired| then s else StartCallback(s)
    case (EndCallback, InPass(now, expired, next, running)) =>
      if running && next < |expired| then FinishCallback(e, s) else s
    case (EndPass, InPass(now, expired, next, running)) =>
      if running || next != |expired| then s else ResetTimerFd(e, s.(mode := Idle))
    case (BeginTasks, Idle) =>
      if s.pending == [] then s else s.(pending := [], mode := Draining(s.pending, 0))
    case (NextTask, Draining(tasks, done)) =>
      if done >= |tasks| then s
      else s.(mode := s.mode.(done := done + 1), hist := s.hist.(executed := s.hist.executed + [tasks[done]]))
    case (EndTasks, Draining(tasks, done)) => if done == |tasks| then s.(mode := Idle) else s
    case _ => s
  }

  function Run(e: nat -> nat, s: State, steps: seq<Step>): State {
    if steps == [] then s
    else Apply(e, Run(e, s, steps[..|steps| - 1]), steps[|steps| - 1])
  }

  lemma RunOne(e: nat -> nat, s: State, steps: seq<Step>, step: Step)
    ensures Run(e, s, steps + [step]) == Apply(e, Run(e, s, steps), step)
  {
    assert (steps + [step])[..|steps|] == steps;
  }

  lemma {:induction false} RunConcat(e: nat -> nat, s: State, a: seq<Step>, b: seq<Step>)
    ensures Run(e, s, a + b) == Run(e, Run(e, s, a), b)
    decreases |b|
  {
    if b == [] {
      assert a + b == a;
    } else {
      var b' := b[..|b| - 1];
      RunConcat(e, s, a, b');
      assert (a + b)[..|a + b| - 1] == a + b';
    }
  }
}
