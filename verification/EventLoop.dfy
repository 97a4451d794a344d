/** The event loop's timer queue and deferred-task queue, in the form of the source: an object whose
    methods update its fields.  `View` is the machine state that the fields stand for, and `trace` is the
    run of the machine that the object has made, so that everything proved of runs holds of the object. */
module EventLoopClass {
  import opened Results
  import opened TimerQueue
  import M = LoopModel
  import opened LoopInvariants
  import opened LoopTheorems

  /** What `epoll_wait` reported for one source. */
  datatype Event = TimerEvent(readSucceeds: bool) | ReceiverEvent(handler: Callback)

  datatype Poll = Failed(error: Errno) | Interrupted | Ready(events: seq<Event>)

  /** The loop at one moment, with the callbacks and tasks that it has invoked so far. */
  datatype Point = Point(state: M.State, invoked: seq<Callback>, invocations: nat)

  class EventLoop {
    /** The time that passes before each clock reading. */
    const elapsed: nat -> nat
    /** What a callback does when it is the n-th one to be invoked. */
    const script: (Callback, nat) -> seq<M.Action>
    ghost const start: nat

    var clock: nat
    var readings: nat
    var invocations: nat
    var nextTimerId: nat
    var timers: seq<Timer>
    var activeTimers: map<nat, Timer>
    var timerFd: Option<nat>
    var pendingTasks: seq<Callback>

    ghost var mode: M.Mode
    ghost var hist: M.History
    ghost var trace: seq<M.Step>
    /** The callbacks and tasks invoked so far. */
    ghost var invoked: seq<Callback>

    ghost function View(): M.State
      reads this
    {
      M.State(clock, readings, nextTimerId, timers, activeTimers, timerFd, pendingTasks, mode, hist)
    }

    ghost function Here(): Point
      reads this
    {
      Point(View(), invoked, invocations)
    }

    /** The object is in the state that its trace leads to. */
    ghost predicate Valid()
      reads this
    {
      0 < start && View() == M.Run(elapsed, M.Init(start), trace)
    }

    /** No callback has been invoked since. */
    ghost predicate Quiet(invocations: nat, invoked: seq<Callback>)
      reads this
    {
      this.invocations == invocations && this.invoked == invoked
    }

    constructor (elapsed: nat -> nat, script: (Callback, nat) -> seq<M.Action>, clock: nat)
      requires 0 < clock
      ensures Valid() && View() == M.Init(clock) && this.elapsed == elapsed && this.script == script
      ensures nextTimerId == 1 && timers == [] && activeTimers == map[] && timerFd == None && pendingTasks == []
      ensures mode.Idle? && invocations == 0 && invoked == []
    {
      this.elapsed, this.script, this.start := elapsed, script, clock;
      this.clock, readings, invocations, nextTimerId := clock, 0, 0, 1;
      timers, activeTimers, timerFd, pendingTasks := [], map[], None, [];
      mode, hist, trace, invoked := M.Idle, M.History(map[], {}, [], [], []), [], [];
    }

    lemma ValidInv()
      requires Valid()
      ensures Inv(View())
    {
      InitInv(start);
      RunKeepsInv(elapsed, M.Init(start), trace);
    }

    /** Records that the object has made the machine step `step`. */
    ghost method Record(step: M.Step, before: M.State)
      requires 0 < start && before == M.Run(elapsed, M.Init(start), trace)
      requires View() == M.Apply(elapsed, before, step)
      modifies this`trace
      ensures Valid() && trace == old(trace) + [step]
    {
      M.RunOne(elapsed, M.Init(start), trace, step);
      trace := trace + [step];
    }

    method Now() returns (now: nat)
      modifies this`clock, this`readings
      ensures View() == M.Tick(elapsed, old(View())) && now == clock
    {
      clock := clock + elapsed(readings);
      readings := readings + 1;
      now := clock;
    }

    method ResetTimerFd()
      modifies this`clock, this`readings, this`timerFd
      ensures View() == M.ResetTimerFd(elapsed, old(View()))
    {
      hide M.Run;
      if |timers| == 0 {
        timerFd := None;
        return;
      }
      var now := Now();
      var expiration := timers[0].expiration;
      var sec, nsec := 0, 1;
      if expiration > now {
        var dur := expiration - now;
        sec := dur / NS_PER_SEC;
        nsec := dur % NS_PER_SEC;
      }
      timerFd := M.SetTime(M.TimerSpec(sec, nsec));
    }

    method InsertTimer(t: Timer)
      modifies this`clock, this`readings, this`timerFd, this`timers, this`activeTimers
      ensures View() == M.InsertTimer(elapsed, old(View()), t)
    {
      hide M.Run, SetElement, SetInsert, M.ResetTimerFd;
      var earliestChanged := false;
      if |timers| == 0 || t.expiration < timers[0].expiration {
        earliestChanged := true;
      }
      var element := SetElement(timers, t);
      timers := SetInsert(timers, t);
      activeTimers := activeTimers[element.id := element];
      if earliestChanged {
        ResetTimerFd();
      }
    }

    /** What `runAfter` and `runEvery` do after their argument checks. */
    method Schedule(delay: nat, interval: nat, cb: Callback, repeat: bool) returns (id: nat)
      modifies this`clock, this`readings, this`timerFd, this`timers, this`activeTimers, this`nextTimerId, this`hist
      ensures View() == M.AddTimer(elapsed, old(View()), delay, interval, cb, repeat) && id == old(nextTimerId)
    {
      hide M.Run, M.InsertTimer;
      id := nextTimerId;
      nextTimerId := nextTimerId + 1;
      var now := Now();
      var t := Timer(now + delay * NS_PER_MS, interval, cb, id, repeat);
      hist := hist.(created := hist.created[id := t]);
      assert View() == M.Issued(M.Tick(elapsed, old(View())), t);
      InsertTimer(t);
    }

    method RunAfter(delay: int, cb: Callback) returns (r: Result<nat>)
      requires Valid()
      modifies this
      ensures Valid() && trace == old(trace) + [M.Call(M.RunAfter(delay, cb))]
      ensures View() == M.Perform(elapsed, old(View()), M.RunAfter(delay, cb)) && Quiet(old(invocations), old(invoked))
      ensures r == if delay < 0 then Err(EINVAL) else Ok(old(nextTimerId))
    {
      hide M.Run, M.AddTimer;
      ghost var before := View();
      if delay < 0 {
        Record(M.Call(M.RunAfter(delay, cb)), before);
        return Err(EINVAL);
      }
      var id := Schedule(delay, 0, cb, false);
      Record(M.Call(M.RunAfter(delay, cb)), before);
      return Ok(id);
    }

    method RunEvery(interval: int, cb: Callback) returns (r: Result<nat>)
      requires Valid()
      modifies this
      ensures Valid() && trace == old(trace) + [M.Call(M.RunEvery(interval, cb))]
      ensures View() == M.Perform(elapsed, old(View()), M.RunEvery(interval, cb))
      ensures Quiet(old(invocations), old(invoked))
      ensures r == if interval <= 0 then Err(EINVAL) else Ok(old(nextTimerId))
    {
      hide M.Run, M.AddTimer;
      ghost var before := View();
      if interval <= 0 {
        Record(M.Call(M.RunEvery(interval, cb)), before);
        return Err(EINVAL);
      }
      var id := Schedule(interval, interval, cb, true);
      Record(M.Call(M.RunEvery(interval, cb)), before);
      return Ok(id);
    }

    /** What the index refers to is an element of the ordered set: no stored iterator dangles. */
    lemma StoredIteratorIsValid(id: nat)
      requires Valid() && id in activeTimers
      ensures activeTimers[id] in timers
    {
      ValidInv();
    }

    method CancelTimer(id: nat) returns (r: Result<()>)
      requires Valid()
      modifies this
      ensures Valid() && trace == old(trace) + [M.Call(M.CancelTimer(id))]
      ensures View() == M.Perform(elapsed, old(View()), M.CancelTimer(id)) && Quiet(old(invocations), old(invoked))
      ensures r == if id in old(activeTimers) then Ok(()) else Err(ENOENT)
    {
      hide M.Run, M.ResetTimerFd, SetErase;
      ghost var before := View();
      if id !in activeTimers {
        Record(M.Call(M.CancelTimer(id)), before);
        return Err(ENOENT);
      }
      var element := activeTimers[id];
      StoredIteratorIsValid(id);
      timers := SetErase(timers, element);
      activeTimers := activeTimers - {id};
      hist := hist.(cancelled := hist.cancelled + {id});
      ResetTimerFd();
      Record(M.Call(M.CancelTimer(id)), before);
      return Ok(());
    }

    method RunInLoop(task: Callback)
      requires Valid()
      modifies this
      ensures Valid() && trace == old(trace) + [M.Call(M.RunInLoop(task))]
      ensures View() == M.Perform(elapsed, old(View()), M.RunInLoop(task)) && Quiet(old(invocations), old(invoked))
    {
      hide M.Run;
      ghost var before := View();
      pendingTasks := pendingTasks + [task];
      hist := hist.(enqueued := hist.enqueued + [task]);
      Record(M.Call(M.RunInLoop(task)), before);
    }

    /** `Clock::now()` as called by client code. */
    method ReadClock() returns (now: nat)
      requires Valid()
      modifies this
      ensures Valid() && trace == old(trace) + [M.Call(M.ReadClock)]
      ensures View() == M.Tick(elapsed, old(View())) && Quiet(old(invocations), old(invoked)) && now == clock
    {
      hide M.Run;
      ghost var before := View();
      now := Now();
      Record(M.Call(M.ReadClock), before);
    }

    /** Executes the body of a callback: its calls on the loop, one after the other. */
    method Invoke(cb: Callback)
      requires Valid()
      modifies this
      ensures Valid() && trace == old(trace) + CallSteps(script(cb, old(invocations)))
      ensures View() == M.Run(elapsed, old(View()), CallSteps(script(cb, old(invocations))))
      ensures invoked == old(invoked) + [cb] && invocations == old(invocations) + 1
      ensures mode == old(mode) && hist.fired == old(hist.fired) && hist.executed == old(hist.executed)
    {
      hide M.Run, M.Perform;
      var actions := script(cb, invocations);
      invocations := invocations + 1;
      invoked := invoked + [cb];
      for i := 0 to |actions|
        invariant Valid() && trace == old(trace) + CallSteps(actions)[..i]
        invariant invoked == old(invoked) + [cb] && invocations == old(invocations) + 1
        invariant mode == old(mode) && hist.fired == old(hist.fired) && hist.executed == old(hist.executed)
      {
        CallsKeepMode(elapsed, View(), actions[i]);
        match actions[i] {
          case RunAfter(delay, c) => var _ := RunAfter(delay, c);
          case RunEvery(interval, c) => var _ := RunEvery(interval, c);
          case CancelTimer(id) => var _ := CancelTimer(id);
          case RunInLoop(task) => RunInLoop(task);
          case ReadClock => var _ := ReadClock();
        }
      }
      assert CallSteps(actions)[..|actions|] == CallSteps(actions);
      M.RunConcat(elapsed, M.Init(start), old(trace), CallSteps(actions));
    }

    /** The extraction loop: everything that has expired at `now` moves from the queue to a batch. */
    method ExtractExpired(now: nat) returns (expired: seq<Timer>)
      requires now == clock
      modifies this`timers, this`activeTimers, this`mode
      ensures View() == M.Extract(old(View())) && mode == M.InPass(now, expired, 0, false)
    {
      hide M.Run;
      expired := [];
      while |timers| > 0 && timers[0].expiration <= now
        invariant |expired| <= |old(timers)| && expired == old(timers)[..|expired|]
        invariant timers == old(timers)[|expired|..]
        invariant forall t :: t in expired ==> t.expiration <= now
        invariant activeTimers == old(activeTimers) - (set t | t in expired :: t.id)
        invariant mode == old(mode)
        decreases |timers|
      {
        var it := timers[0];
        expired := expired + [it];
        activeTimers := activeTimers - {it.id};
        timers := timers[1..];
      }
      assert |expired| == CountDue(old(timers), now) by {
        DuePrefixUnique(old(timers), now, |expired|);
      }
      mode := M.InPass(now, expired, 0, false);
    }

    lemma DueIfFiring()
      requires Valid() && mode.Idle?
      ensures var pass := M.Apply(elapsed, View(), M.BeginPass(true)).mode;
              pass.InPass? ==> BatchIsDue(timers, pass.now, pass.expired)
    {
      ValidInv();
      if M.Apply(elapsed, View(), M.BeginPass(true)).mode.InPass? {
        ExtractedIsDue(elapsed, View());
      }
    }

    /** The read of the descriptor and, if it found a tick, the extraction. */
    method BeginPass(readSucceeds: bool) returns (fires: bool, expired: seq<Timer>)
      requires Valid() && mode.Idle?
      modifies this
      ensures Valid() && trace == old(trace) + [M.BeginPass(readSucceeds)] && Quiet(old(invocations), old(invoked))
      ensures View() == M.Apply(elapsed, old(View()), M.BeginPass(readSucceeds))
      ensures fires == mode.InPass?
      ensures fires ==> mode == M.InPass(clock, expired, 0, false) && BatchIsDue(old(timers), clock, expired)
    {
      hide M.Run, M.Extract, BatchIsDue;
      ghost var before := View();
      DueIfFiring();
      expired := [];
      var atRead := Now();
      fires := readSucceeds && timerFd.Some? && timerFd.value <= atRead;
      if fires {
        timerFd := None;
        var now := Now();
        expired := ExtractExpired(now);
      }
      Record(M.BeginPass(readSucceeds), before);
    }

    method BeginTurn(t: Timer)
      requires Valid() && mode.InPass? && !mode.running && mode.next < |mode.expired|
      requires t == mode.expired[mode.next]
      modifies this`mode, this`hist, this`trace
      ensures Valid() && trace == old(trace) + [M.FireNext]
      ensures View() == M.Apply(elapsed, old(View()), M.FireNext) && mode == old(mode).(running := true)
      ensures hist.executed == old(hist.executed)
    {
      hide M.Run;
      ghost var before := View();
      mode := mode.(running := true);
      hist := hist.(fired := hist.fired + [M.Firing.Firing(t, clock)]);
      Record(M.FireNext, before);
    }

    method EndTurn(t: Timer)
      requires Valid() && mode.InPass? && mode.running && mode.next < |mode.expired|
      requires t == mode.expired[mode.next]
      modifies this
      ensures Valid() && trace == old(trace) + [M.EndCallback] && Quiet(old(invocations), old(invoked))
      ensures View() == M.Apply(elapsed, old(View()), M.EndCallback)
      ensures mode == old(mode).(next := old(mode.next) + 1, running := false) && hist == old(hist)
    {
      hide M.Run, M.InsertTimer;
      ghost var before := View();
      mode := mode.(next := mode.next + 1, running := false);
      if t.repeat {
        InsertTimer(t.Advanced());
      }
      Record(M.EndCallback, before);
    }

    method EndPass()
      requires Valid() && mode.InPass? && !mode.running && mode.next == |mode.expired|
      modifies this
      ensures Valid() && trace == old(trace) + [M.EndPass] && Quiet(old(invocations), old(invoked))
      ensures View() == M.Apply(elapsed, old(View()), M.EndPass)
    {
      hide M.Run, M.ResetTimerFd;
      ghost var before := View();
      mode := M.Idle;
      ResetTimerFd();
      Record(M.EndPass, before);
    }

    /** The turn of one timer of the batch: its callback makes its calls, and it is rescheduled if it repeats. */
    method TakeTurn(t: Timer, ghost base: seq<M.Firing>, ghost now: nat, ghost batch: seq<Timer>)
      requires Valid() && PassLog(base, now, batch, View()) && mode.InPass? && !mode.running
      requires mode.next < |mode.expired| && t == mode.expired[mode.next]
      modifies this
      ensures Valid() && trace == old(trace) + Turn(script, t, old(invocations))
      ensures hist.executed == old(hist.executed) && mode == old(mode).(next := old(mode.next) + 1)
      ensures PassLog(base, now, batch, View()) && Invokes(old(Here()), CallbackOf(t))
    {
      hide M.Run, M.Apply, PassLog, CallSteps;
      StepKeepsPassLog(elapsed, View(), M.FireNext, base, now, batch);
      BeginTurn(t);
      if t.callback != Empty {
        Invoke(t.callback);
      }
      StepKeepsPassLog(elapsed, View(), M.EndCallback, base, now, batch);
      EndTurn(t);
    }

    /** The callback loop of a pass: every timer of the batch has its turn. */
    method FireBatch(expired: seq<Timer>, ghost base: seq<M.Firing>, ghost now: nat)
      requires Valid() && PassLog(base, now, expired, View()) && mode == M.InPass(now, expired, 0, false)
      modifies this
      ensures Valid() && trace == old(trace) + Turns(script, expired, old(invocations))
      ensures hist.executed == old(hist.executed)
      ensures PassLog(base, now, expired, View()) && mode == M.InPass(now, expired, |expired|, false)
      ensures Invokes(old(Here()), CallbacksOf(expired))
    {
      hide M.Run, M.Apply, PassLog, Turn, Turns, CallbackOf, CallbacksOf;
      NoTurns(script, old(invocations));
      assert expired[..0] == [];
      for i := 0 to |expired|
        invariant Valid() && trace == old(trace) + Turns(script, expired[..i], old(invocations))
        invariant hist.executed == old(hist.executed)
        invariant PassLog(base, now, expired, View()) && mode == M.InPass(now, expired, i, false)
        invariant Invokes(old(Here()), CallbacksOf(expired[..i]))
      {
        OneMoreTurn(script, expired, i, old(invocations));
        TakeTurn(expired[i], base, now, expired);
      }
      assert expired[..|expired|] == expired;
    }

    /** `callbacks` have been invoked since `before`. */
    ghost predicate Invokes(before: Point, callbacks: seq<Callback>)
      reads this
    {
      invoked == before.invoked + callbacks && invocations == before.invocations + |callbacks|
    }

    /** The object has made `steps` since it stood where `before` was its trace. */
    lemma StateAfter(before: seq<M.Step>, steps: seq<M.Step>)
      requires Valid() && trace == before + steps
      ensures View() == M.Run(elapsed, M.Run(elapsed, M.Init(start), before), steps)
    {
      M.RunConcat(elapsed, M.Init(start), before, steps);
    }

    /** A pass that finds an unread tick fires exactly what has expired, each timer with the calls of its callback;
        otherwise only time passes. */
    method HandleTimerRead(readSucceeds: bool)
      requires Valid() && mode.Idle?
      modifies this
      ensures Valid() && mode.Idle? && hist.executed == old(hist.executed)
      ensures trace == old(trace) + EventSteps(TimerEvent(readSucceeds), old(Here()))
      ensures Handled(TimerEvent(readSucceeds), old(Here()), Here())
    {
      hide M.Run, FiredExactly, BatchIsDue, CallbacksOf, TimersOf, Turns;
      ghost var before := Here();
      var fires, expired := BeginPass(readSucceeds);
      if fires {
        ghost var now := clock;
        FireBatch(expired, before.state.hist.fired, now);
        LogMatchesBatch(before.state.timers, before.state.hist.fired, now, expired, View());
        LogIsBatch(before.state.hist.fired, now, expired, View());
        EndPass();
      }
      assert trace == old(trace) + EventSteps(TimerEvent(readSucceeds), before);
      StateAfter(old(trace), EventSteps(TimerEvent(readSucceeds), before));
    }

    method BeginTasks() returns (tasks: seq<Callback>)
      requires Valid() && mode.Idle? && pendingTasks != []
      modifies this`pendingTasks, this`mode, this`trace
      ensures Valid() && trace == old(trace) + [M.BeginTasks] && pendingTasks == []
      ensures tasks == old(pendingTasks) && mode == M.Draining(tasks, 0)
    {
      hide M.Run;
      ghost var before := View();
      tasks := pendingTasks;
      pendingTasks := [];
      mode := M.Draining(tasks, 0);
      Record(M.BeginTasks, before);
    }

    ghost method CountTask()
      requires Valid() && mode.Draining? && mode.done < |mode.tasks|
      modifies this`mode, this`hist, this`trace
      ensures Valid() && trace == old(trace) + [M.NextTask]
      ensures mode == old(mode).(done := old(mode.done) + 1)
      ensures hist.executed == old(hist.executed) + [old(mode.tasks[mode.done])]
    {
      hide M.Run;
      ghost var before := View();
      hist := hist.(executed := hist.executed + [mode.tasks[mode.done]]);
      mode := mode.(done := mode.done + 1);
      Record(M.NextTask, before);
    }

    ghost method EndTasks()
      requires Valid() && mode.Draining? && mode.done == |mode.tasks|
      modifies this`mode, this`trace
      ensures Valid() && trace == old(trace) + [M.EndTasks] && mode.Idle?
    {
      hide M.Run;
      ghost var before := View();
      mode := M.Idle;
      Record(M.EndTasks, before);
    }

    /** One task of the batch being drained makes its calls. */
    method RunTask(task: Callback)
      requires Valid() && mode.Draining? && mode.done < |mode.tasks| && task == mode.tasks[mode.done]
      modifies this
      ensures Valid() && trace == old(trace) + TaskStep(script, task, old(invocations))
      ensures mode == old(mode).(done := old(mode.done) + 1) && hist.executed == old(hist.executed) + [task]
      ensures Invokes(old(Here()), [task])
    {
      hide M.Run, CallSteps;
      CountTask();
      Invoke(task);
    }

    /** The task phase executes what was pending when it began, each task making its calls, and nothing that is
        enqueued meanwhile. */
    method DrainTasks()
      requires Valid() && mode.Idle?
      modifies this
      ensures Valid() && mode.Idle?
      ensures trace == old(trace) + DrainSteps(script, old(pendingTasks), old(invocations))
      ensures View() == M.Run(elapsed, old(View()), DrainSteps(script, old(pendingTasks), old(invocations)))
      ensures hist.executed == old(hist.executed) + old(pendingTasks)
      ensures Invokes(old(Here()), old(pendingTasks))
    {
      hide M.Run, TaskStep, TaskSteps;
      ghost var before, n := trace, invocations;
      if pendingTasks != [] {
        var tasks := BeginTasks();
        ghost var begun := trace;
        NoTasks(script, n);
        assert tasks[..0] == [];
        for i := 0 to |tasks|
          invariant Valid() && mode == M.Draining(tasks, i)
          invariant trace == begun + TaskSteps(script, tasks[..i], n)
          invariant hist.executed == old(hist.executed) + tasks[..i] && Invokes(old(Here()), tasks[..i])
        {
          OneMoreTask(script, tasks, i, n);
          RunTask(tasks[i]);
        }
        assert tasks[..|tasks|] == tasks;
        EndTasks();
      }
      assert trace == before + DrainSteps(script, old(pendingTasks), n);
      StateAfter(before, DrainSteps(script, old(pendingTasks), n));
    }

    /** The steps that one event makes: a timer event reads the descriptor and, if that finds an unread tick, gives
        every timer that has expired its turn; a receiver event makes the calls of its handler. */
    ghost function EventSteps(event: Event, before: Point): seq<M.Step> {
      match event
      case TimerEvent(readSucceeds) =>
        var begun := M.Apply(elapsed, before.state, M.BeginPass(readSucceeds));
        [M.BeginPass(readSucceeds)] +
        if begun.mode.InPass? then Turns(script, begun.mode.expired, before.invocations) + [M.EndPass] else []
      case ReceiverEvent(handler) => CallSteps(script(handler, before.invocations))
    }

    /** What one event does: the loop makes its steps.  A timer event that finds an unread tick fires exactly what has
        expired and invokes the callbacks of those timers; one that does not lets only time pass.  A receiver event
        invokes its handler. */
    ghost predicate Handled(event: Event, before: Point, after: Point) {
      && after.state == M.Run(elapsed, before.state, EventSteps(event, before))
      && before.invoked <= after.invoked && after.invocations - before.invocations == |after.invoked| - |before.invoked|
      && match event
         case TimerEvent(readSucceeds) =>
           if readSucceeds && M.Readable(M.Tick(elapsed, before.state))
           then
             var s, fired := before.state, after.state.hist.fired;
             && FiredExactly(s.timers, s.clock + elapsed(s.readings) + elapsed(s.readings + 1), s.hist.fired, fired)
             && after.invoked == before.invoked + CallbacksOf(TimersOf(fired[|s.hist.fired|..]))
           else after.state == M.Tick(elapsed, before.state) && after.invoked == before.invoked
         case ReceiverEvent(handler) =>
           after.state.hist.fired == before.state.hist.fired && after.invoked == before.invoked + [handler]
    }

    /** The timer and receiver events of one poll, in the order in which they were reported; `points` are the
        moments between them. */
    method DispatchEvents(events: seq<Event>) returns (ghost points: seq<Point>)
      requires Valid() && mode.Idle?
      modifies this
      ensures Valid() && mode.Idle? && old(trace) <= trace && hist.executed == old(hist.executed)
      ensures |points| == |events| + 1 && points[0] == old(Here()) && points[|events|] == Here()
      ensures forall i :: 0 <= i < |events| ==> Handled(events[i], points[i], points[i + 1])
    {
      hide M.Run, M.Apply, FiredExactly, CallbacksOf, TimersOf, Turns;
      points := [Here()];
      for i := 0 to |events|
        invariant Valid() && mode.Idle? && old(trace) <= trace && hist.executed == old(hist.executed)
        invariant |points| == i + 1 && points[0] == old(Here()) && points[i] == Here()
        invariant forall k :: 0 <= k < i ==> Handled(events[k], points[k], points[k + 1])
      {
        match events[i] {
          case TimerEvent(readSucceeds) => HandleTimerRead(readSucceeds);
          case ReceiverEvent(handler) => Invoke(handler);
        }
        assert Handled(events[i], points[i], Here());
        points := points + [Here()];
      }
    }

    lemma ConservedWhenIdle()
      requires Valid() && mode.Idle?
      ensures hist.enqueued == hist.executed + pendingTasks
    {
      ValidInv();
    }

    /** One turn of the loop.  A failed or interrupted poll changes nothing.  Otherwise the events are handled one
        after the other, and then every task that is pending by then is executed, in order, and no other: what
        a task enqueues stays pending. */
    method RunOnce(timeoutMs: int, poll: Poll) returns (r: Result<()>, waited: int, ghost points: seq<Point>)
      requires Valid() && mode.Idle?
      modifies this
      ensures Valid() && mode.Idle? && old(trace) <= trace
      ensures waited == if old(pendingTasks) != [] then 0 else timeoutMs
      ensures r == if poll.Failed? then Err(poll.error) else Ok(())
      ensures !poll.Ready? ==> Here() == old(Here())
      ensures hist.enqueued == hist.executed + pendingTasks
      ensures poll.Ready? ==>
        && |points| == |poll.events| + 1 && points[0] == old(Here())
        && (forall i :: 0 <= i < |poll.events| ==> Handled(poll.events[i], points[i], points[i + 1]))
        && var handled := points[|poll.events|];
           && View() == M.Run(elapsed, handled.state, DrainSteps(script, handled.state.pending, handled.invocations))
           && hist.executed == handled.state.hist.enqueued && Invokes(handled, handled.state.pending)
           && old(hist.executed) + old(pendingTasks) <= hist.executed
    {
      hide M.Run, Handled, DrainSteps;
      waited, points := timeoutMs, [];
      if pendingTasks != [] {
        waited := 0;
      }
      ConservedWhenIdle();
      match poll {
        case Failed(error) => r := Err(error);
        case Interrupted => r := Ok(());
        case Ready(events) =>
          ghost var before := trace;
          points := DispatchEvents(events);
          ConservedWhenIdle();
          EnqueuedGrows(before);
          DrainTasks();
          ConservedWhenIdle();
          r := Ok(());
      }
    }

    /** What was enqueued at an earlier point of the trace still is. */
    lemma EnqueuedGrows(before: seq<M.Step>)
      requires Valid() && before <= trace
      ensures M.Run(elapsed, M.Init(start), before).hist.enqueued <= hist.enqueued
    {
      var s := M.Run(elapsed, M.Init(start), before);
      assert trace == before + trace[|before|..];
      M.RunConcat(elapsed, M.Init(start), before, trace[|before|..]);
      RunKeepsEnqueued(elapsed, s, trace[|before|..]);
    }
  }

  /** The machine steps of a callback's calls. */
  function CallSteps(actions: seq<M.Action>): (steps: seq<M.Step>)
    ensures |steps| == |actions| && forall i :: 0 <= i < |actions| ==> steps[i] == M.Call(actions[i])
  {
    seq(|actions|, i requires 0 <= i < |actions| => M.Call(actions[i]))
  }

  /** The callback that the turn of a timer invokes: an empty one is skipped. */
  function CallbackOf(t: Timer): seq<Callback> {
    if t.callback == Empty then [] else [t.callback]
  }

  /** The callbacks that a batch of timers invokes. */
  function CallbacksOf(ts: seq<Timer>): seq<Callback> {
    if ts == [] then [] else CallbacksOf(ts[..|ts| - 1]) + CallbackOf(ts[|ts| - 1])
  }

  /** The steps of the turn of a timer whose callback is the n-th to be invoked. */
  function Turn(script: (Callback, nat) -> seq<M.Action>, t: Timer, n: nat): seq<M.Step> {
    [M.FireNext] + (if t.callback == Empty then [] else CallSteps(script(t.callback, n))) + [M.EndCallback]
  }

  /** The steps of the turns of a batch of timers, of which the first callback is the n-th to be invoked. */
  function Turns(script: (Callback, nat) -> seq<M.Action>, ts: seq<Timer>, n: nat): seq<M.Step> {
    if ts == [] then []
    else
      var init := ts[..|ts| - 1];
      Turns(script, init, n) + Turn(script, ts[|ts| - 1], n + |CallbacksOf(init)|)
  }

  lemma NoTurns(script: (Callback, nat) -> seq<M.Action>, n: nat)
    ensures Turns(script, [], n) == [] && CallbacksOf([]) == []
  {
  }

  lemma OneMoreTurn(script: (Callback, nat) -> seq<M.Action>, ts: seq<Timer>, i: nat, n: nat)
    requires i < |ts|
    ensures CallbacksOf(ts[..i + 1]) == CallbacksOf(ts[..i]) + CallbackOf(ts[i])
    ensures Turns(script, ts[..i + 1], n) == Turns(script, ts[..i], n) + Turn(script, ts[i], n + |CallbacksOf(ts[..i])|)
  {
    hide Turn;
    assert ts[..i + 1][..i] == ts[..i];
  }

  /** The steps of a task that is the n-th callback to be invoked. */
  function TaskStep(script: (Callback, nat) -> seq<M.Action>, task: Callback, n: nat): seq<M.Step> {
    [M.NextTask] + CallSteps(script(task, n))
  }

  /** The steps of some tasks, of which the first is the n-th to be invoked. */
  function TaskSteps(script: (Callback, nat) -> seq<M.Action>, tasks: seq<Callback>, n: nat): seq<M.Step> {
    if tasks == [] then []
    else TaskSteps(script, tasks[..|tasks| - 1], n) + TaskStep(script, tasks[|tasks| - 1], n + |tasks| - 1)
  }

  lemma NoTasks(script: (Callback, nat) -> seq<M.Action>, n: nat)
    ensures TaskSteps(script, [], n) == []
  {
  }

  lemma OneMoreTask(script: (Callback, nat) -> seq<M.Action>, tasks: seq<Callback>, i: nat, n: nat)
    requires i < |tasks|
    ensures TaskSteps(script, tasks[..i + 1], n) == TaskSteps(script, tasks[..i], n) + TaskStep(script, tasks[i], n + i)
    ensures tasks[..i + 1] == tasks[..i] + [tasks[i]]
  {
    hide TaskStep;
    assert tasks[..i + 1][..i] == tasks[..i];
  }

  /** The steps of a whole task phase. */
  function DrainSteps(script: (Callback, nat) -> seq<M.Action>, tasks: seq<Callback>, n: nat): seq<M.Step> {
    if tasks == [] then [] else [M.BeginTasks] + TaskSteps(script, tasks, n) + [M.EndTasks]
  }

  function TimersOf(log: seq<M.Firing>): seq<Timer> {
    seq(|log|, i requires 0 <= i < |log| => log[i].timer)
  }

  /** What a whole pass has logged is its batch. */
  lemma LogIsBatch(base: seq<M.Firing>, now: nat, batch: seq<Timer>, s: M.State)
    requires PassLog(base, now, batch, s) && !s.mode.running && s.mode.next == |batch|
    ensures |base| <= |s.hist.fired| && TimersOf(s.hist.fired[|base|..]) == batch
  {
    var suffix := s.hist.fired[|base|..];
    forall i | 0 <= i < |batch| ensures suffix[i].timer == batch[i] {
      assert suffix[i] == s.hist.fired[|base| + i];
    }
  }
}
