/** What the event loop promises its clients, for every run and whatever the callbacks do. */
module LoopTheorems {
  import opened Results
  import opened TimerQueue
  import opened LoopModel
  import opened LoopInvariants

  // ---------- Index ----------

  /** The index and the ordered set hold the same timers, every id belongs to one queued or in-flight
      timer, and every such id has been issued. */
  ghost predicate IndexAgrees(s: State) {
    && s.index.Values == (set t | t in s.timers)
    && (forall id :: id in s.index ==> s.index[id].id == id)
    && DistinctIds(s.timers + Flight(s.mode))
    && (forall t :: t in s.timers + Flight(s.mode) ==> 0 < t.id < s.nextId)
  }

  lemma InvIndexAgrees(s: State)
    requires Inv(s)
    ensures IndexAgrees(s)
  {
    assert forall t :: t in s.timers ==> s.index[t.id] in s.index.Values;
    OneCopyEach(s);
  }

  /** In every state of every run the index agrees with the ordered set. */
  lemma IndexAgreesInEveryRun(e: nat -> nat, clock: nat, steps: seq<Step>)
    requires 0 < clock
    ensures IndexAgrees(Run(e, Init(clock), steps))
  {
    InitInv(clock);
    RunKeepsInv(e, Init(clock), steps);
    InvIndexAgrees(Run(e, Init(clock), steps));
  }

  lemma OneCopyEach(s: State)
    requires Inv(s)
    ensures DistinctIds(s.timers + Flight(s.mode))
  {
    var all := s.timers + Flight(s.mode);
    SortedIdsDistinct(s.timers, s.index, s.nextId, |s.timers|);
    assert s.timers[..|s.timers|] == s.timers;
    forall i, j | 0 <= i < j < |all| ensures all[i].id != all[j].id {
      if i < |s.timers| <= j {
        assert all[i] in s.timers && all[j] in Flight(s.mode);
      }
    }
  }

  /** Rescheduling a repeating timer never meets an equivalent element: the insertion takes place. */
  lemma RescheduleNeverCollides(e: nat -> nat, s: State)
    requires Inv(s) && s.mode.InPass? && s.mode.running && s.mode.next < |s.mode.expired|
    requires s.mode.expired[s.mode.next].repeat
    ensures var t := s.mode.expired[s.mode.next].Advanced();
            var s' := Apply(e, s, EndCallback);
            && t !in s.timers && t in s'.timers && t.id !in s.index && s'.index == s.index[t.id := t]
            && s'.hist == s.hist && s'.mode == Passed(s).mode && s'.nextId == s.nextId && s'.pending == s.pending
  {
    hide InsertTimer, Descends, PlaceOk;
    var t := s.mode.expired[s.mode.next].Advanced();
    assert t.id !in s.index && 0 < t.id < s.nextId by { PassedMayEnter(s); assert Flight(s.mode)[0].id == t.id; }
    assert t !in s.timers;
    InsertIndexes(e, Passed(s), t);
  }

  // ---------- Wake-up ----------

  /** No lost wake-up: outside a pass, as soon as the clock reaches the expiration of any queued timer
      the descriptor has an unread tick, and the pass that reads it fires that timer. */
  lemma NoLostWakeUp(e: nat -> nat, s: State, t: Timer)
    requires Inv(s) && s.mode.Idle? && t in s.timers && t.expiration <= s.clock
    ensures Readable(s)
    ensures var s' := Apply(e, s, BeginPass(true)); s'.mode.InPass? && t in s'.mode.expired
  {
    hide Sorted, FlightOk, LineageOk, LogOk, PlaceOk, CreatedOk, TasksOk, Positive;
    FirstIsEarliest(s.timers, t);
    var s1 := Tick(e, Tick(e, s).(armed := None));
    DueSplit(s1.timers, s1.clock, t);
  }

  /** A failed or too early read loses nothing: only time has passed. */
  lemma FailedReadKeepsTick(e: nat -> nat, s: State, ok: bool)
    requires Inv(s) && s.mode.Idle? && (!ok || !Readable(Tick(e, s)))
    ensures Apply(e, s, BeginPass(ok)) == Tick(e, s)
    ensures Awake(s.timers, s.mode, Apply(e, s, BeginPass(ok)).armed)
  {
  }

  // ---------- The firing pass ----------

  /** Between the extraction and the end of a pass, the log has grown by the part of the batch that ran. */
  ghost predicate PassLog(base: seq<Firing>, now: nat, batch: seq<Timer>, s: State) {
    && s.mode.InPass? && s.mode.now == now && s.mode.expired == batch
    && var ran := s.mode.next + if s.mode.running then 1 else 0;
       && ran <= |batch| && |s.hist.fired| == |base| + ran
       && s.hist.fired[..|base|] == base
       && (forall i :: 0 <= i < ran ==> s.hist.fired[|base| + i].timer == batch[i])
  }

  lemma CallsKeepMode(e: nat -> nat, s: State, a: Action)
    ensures Perform(e, s, a).mode == s.mode && Perform(e, s, a).hist.fired == s.hist.fired
    ensures Perform(e, s, a).hist.executed == s.hist.executed
  {
  }

  lemma StepKeepsPassLog(e: nat -> nat, s: State, step: Step, base: seq<Firing>, now: nat, batch: seq<Timer>)
    requires PassLog(base, now, batch, s) && step != EndPass
    ensures PassLog(base, now, batch, Apply(e, s, step))
  {
    if step.Call? { CallsKeepMode(e, s, step.action); }
  }

  lemma {:induction false} RunKeepsPassLog(e: nat -> nat, s: State, steps: seq<Step>, base: seq<Firing>, now: nat,
                                           batch: seq<Timer>)
    requires PassLog(base, now, batch, s) && EndPass !in steps
    ensures PassLog(base, now, batch, Run(e, s, steps))
    decreases |steps|
  {
    if steps != [] {
      RunKeepsPassLog(e, s, steps[..|steps| - 1], base, now, batch);
      StepKeepsPassLog(e, Run(e, s, steps[..|steps| - 1]), steps[|steps| - 1], base, now, batch);
    }
  }

  /** Since `base`, the log has grown by exactly those of `timers` that had expired at `now`, each once
      and in (expiration, id) order. */
  ghost predicate FiredExactly(timers: seq<Timer>, now: nat, base: seq<Firing>, log: seq<Firing>) {
    && base <= log
    && (forall i, j :: |base| <= i < j < |log| ==>
          || log[i].timer.expiration < log[j].timer.expiration
          || (log[i].timer.expiration == log[j].timer.expiration && log[i].timer.id < log[j].timer.id))
    && (forall t :: t in timers && t.expiration <= now <==> exists i :: |base| <= i < |log| && log[i].timer == t)
  }

  /** The batch of a pass is what was queued and had expired at its sampled now. */
  ghost predicate BatchIsDue(timers: seq<Timer>, now: nat, batch: seq<Timer>) {
    Sorted(batch) && forall t :: t in batch <==> t in timers && t.expiration <= now
  }

  lemma LogAt(base: seq<Firing>, now: nat, batch: seq<Timer>, s: State, i: nat)
    requires PassLog(base, now, batch, s) && !s.mode.running && s.mode.next == |batch| && i < |batch|
    ensures |s.hist.fired| == |base| + |batch| && base <= s.hist.fired && s.hist.fired[|base| + i].timer == batch[i]
  {
  }

  lemma SortedPair(ts: seq<Timer>, i: nat, j: nat)
    requires Sorted(ts) && i < j < |ts|
    ensures ts[i].expiration < ts[j].expiration || (ts[i].expiration == ts[j].expiration && ts[i].id < ts[j].id)
  {
  }

  lemma LogMatchesBatch(timers: seq<Timer>, base: seq<Firing>, now: nat, batch: seq<Timer>, s: State)
    requires PassLog(base, now, batch, s) && !s.mode.running && s.mode.next == |batch|
    requires BatchIsDue(timers, now, batch)
    ensures FiredExactly(timers, now, base, s.hist.fired)
  {
    var log, b := s.hist.fired, |base|;
    assert base <= log && |log| == b + |batch|;
    hide Sorted, PassLog;
    forall i, j | b <= i < j < |log|
      ensures || log[i].timer.expiration < log[j].timer.expiration
              || (log[i].timer.expiration == log[j].timer.expiration && log[i].timer.id < log[j].timer.id)
    {
      LogAt(base, now, batch, s, i - b);
      LogAt(base, now, batch, s, j - b);
      SortedPair(batch, i - b, j - b);
    }
    forall t ensures t in batch <==> exists i :: b <= i < |log| && log[i].timer == t {
      BatchLogged(base, now, batch, s, t);
    }
  }

  lemma BatchLogged(base: seq<Firing>, now: nat, batch: seq<Timer>, s: State, t: Timer)
    requires PassLog(base, now, batch, s) && !s.mode.running && s.mode.next == |batch|
    ensures t in batch <==> exists i :: |base| <= i < |s.hist.fired| && s.hist.fired[i].timer == t
  {
    var log, b := s.hist.fired, |base|;
    assert |log| == b + |batch|;
    hide PassLog;
    if t in batch {
      var i :| 0 <= i < |batch| && batch[i] == t;
      LogAt(base, now, batch, s, i);
      assert log[b + i].timer == t;
    }
    if i :| b <= i < |log| && log[i].timer == t {
      LogAt(base, now, batch, s, i - b);
    }
  }

  lemma ExtractedIsDue(e: nat -> nat, s: State)
    requires Inv(s) && s.mode.Idle? && Apply(e, s, BeginPass(true)).mode.InPass?
    ensures var mode := Apply(e, s, BeginPass(true)).mode; BatchIsDue(s.timers, mode.now, mode.expired)
  {
    hide FlightOk, LineageOk, LogOk, PlaceOk, CreatedOk, TasksOk, Positive, CountDue, Sorted;
    var mode := Apply(e, s, BeginPass(true)).mode;
    SortedParts(s.timers, CountDue(s.timers, mode.now));
    forall t ensures t in mode.expired <==> t in s.timers && t.expiration <= mode.now {
      DueSplit(s.timers, mode.now, t);
    }
  }

  /** One pass fires exactly the timers that were queued before it and expired at its sampled now, each
      once, in (expiration, id) order, whatever happens in between; in particular a timer added by a
      callback, even with no delay, is left to a later pass. */
  lemma PassIsExact(e: nat -> nat, s: State, steps: seq<Step>)
    requires Inv(s) && s.mode.Idle? && EndPass !in steps
    requires Apply(e, s, BeginPass(true)).mode.InPass?
    requires Apply(e, Run(e, Apply(e, s, BeginPass(true)), steps), EndPass).mode.Idle?
    ensures var s1 := Apply(e, s, BeginPass(true));
            FiredExactly(s.timers, s1.mode.now, s.hist.fired, Apply(e, Run(e, s1, steps), EndPass).hist.fired)
  {
    var s1 := Apply(e, s, BeginPass(true));
    var s2 := Run(e, s1, steps);
    assert PassLog(s.hist.fired, s1.mode.now, s1.mode.expired, s2) by {
      RunKeepsPassLog(e, s1, steps, s.hist.fired, s1.mode.now, s1.mode.expired);
    }
    assert BatchIsDue(s.timers, s1.mode.now, s1.mode.expired) by { ExtractedIsDue(e, s); }
    PassEnds(e, s2, s.timers, s.hist.fired, s1.mode.now, s1.mode.expired);
  }

  lemma PassEnds(e: nat -> nat, s: State, timers: seq<Timer>, base: seq<Firing>, now: nat, batch: seq<Timer>)
    requires PassLog(base, now, batch, s) && BatchIsDue(timers, now, batch)
    requires Apply(e, s, EndPass).mode.Idle?
    ensures FiredExactly(timers, now, base, Apply(e, s, EndPass).hist.fired)
  {
    LogMatchesBatch(timers, base, now, batch, s);
  }

  // ---------- Cancellation ----------

  /** `id` was issued, and is neither queued nor in flight. */
  predicate Dead(s: State, id: nat) {
    0 < id < s.nextId && id !in s.index && !InFlight(Flight(s.mode), id)
  }

  /** Inserting a timer with a new id indexes it, and changes nothing but the queue, clock and descriptor. */
  lemma InsertIndexes(e: nat -> nat, s: State, t: Timer)
    requires QueueOk(s.timers, s.index, s.nextId) && t.id !in s.index && 0 < t.id < s.nextId
    ensures var s' := InsertTimer(e, s, t);
            && s'.index == s.index[t.id := t] && t in s'.timers
            && s'.hist == s.hist && s'.mode == s.mode && s'.pending == s.pending && s'.nextId == s.nextId
  {
    hide QueueOk, SetElement, SetInsert, SetTime, SpecFor;
    QueuedContents(s.timers, s.index, s.nextId, t);
  }

  lemma AddIndexes(e: nat -> nat, s: State, delay: nat, interval: nat, cb: Callback, repeat: bool)
    requires QueueOk(s.timers, s.index, s.nextId) && 0 < s.nextId
    ensures var t := Timer(Tick(e, s).clock + delay * NS_PER_MS, interval, cb, s.nextId, repeat);
            var s' := AddTimer(e, s, delay, interval, cb, repeat);
            && s'.index == s.index[t.id := t] && s'.hist == s.hist.(created := s.hist.created[t.id := t])
            && s'.nextId == s.nextId + 1 && s'.mode == s.mode && s'.pending == s.pending
  {
    hide InsertTimer;
    var t := Timer(Tick(e, s).clock + delay * NS_PER_MS, interval, cb, s.nextId, repeat);
    InsertIndexes(e, Issued(Tick(e, s), t), t);
  }

  lemma InvIndexable(s: State)
    requires Inv(s)
    ensures QueueOk(s.timers, s.index, s.nextId) && 0 < s.nextId
    ensures s.mode.Draining? ==> s.mode.done <= |s.mode.tasks|
  {
  }

  lemma PerformKeepsDead(e: nat -> nat, s: State, a: Action, id: nat)
    requires Inv(s) && Dead(s, id)
    ensures Dead(Perform(e, s, a), id)
  {
    hide Inv, AddTimer, QueueOk;
    InvIndexable(s);
    CallsKeepMode(e, s, a);
    match a
    case RunAfter(delay, cb) => if delay >= 0 { AddIndexes(e, s, delay, 0, cb, false); }
    case RunEvery(interval, cb) => if interval > 0 { AddIndexes(e, s, interval, interval, cb, true); }
    case _ =>
  }

  lemma StepKeepsDead(e: nat -> nat, s: State, step: Step, id: nat)
    requires Inv(s) && Dead(s, id)
    ensures Dead(Apply(e, s, step), id)
    ensures Times(Apply(e, s, step).hist.fired, id) == Times(s.hist.fired, id)
  {
    hide Core, Perform, BeginFiring, FinishCallback, ResetTimerFd, Times;
    match (step, s.mode)
    case (Call(a), _) =>
      PerformKeepsDead(e, s, a, id);
      CallsKeepMode(e, s, a);
    case (BeginPass(ok), Idle) => BeginKeepsDead(e, s, ok, id);
    case (FireNext, InPass(now, expired, next, running)) =>
      if !running && next < |expired| {
        assert Flight(s.mode)[0] == expired[next];
        TimesAppend(s.hist.fired, Firing(expired[next], s.clock), id);
      }
    case (EndCallback, InPass(now, expired, next, running)) =>
      if running && next < |expired| { FinishKeepsDead(e, s, id); }
    case (EndPass, InPass(now, expired, next, running)) =>
      if !running && next == |expired| { assert Flight(s.mode) == []; ResetKeepsRest(e, s.(mode := Idle)); }
    case _ =>
  }

  lemma ResetKeepsRest(e: nat -> nat, s: State)
    ensures var s' := ResetTimerFd(e, s); s' == s.(clock := s'.clock, readings := s'.readings, armed := s'.armed)
  {
    hide SetTime, SpecFor;
  }

  lemma BeginKeepsDead(e: nat -> nat, s: State, ok: bool, id: nat)
    requires Inv(s) && s.mode.Idle? && Dead(s, id)
    ensures Dead(BeginFiring(e, s, ok), id) && BeginFiring(e, s, ok).hist == s.hist
  {
    hide Inv, QueueOk;
    InvIndexable(s);
    ExtractKeepsQueue(Tick(e, Tick(e, s).(armed := None)));
  }

  lemma FinishKeepsDead(e: nat -> nat, s: State, id: nat)
    requires Inv(s) && s.mode.InPass? && s.mode.running && s.mode.next < |s.mode.expired| && Dead(s, id)
    ensures Dead(FinishCallback(e, s), id) && FinishCallback(e, s).hist == s.hist
  {
    hide Inv, InsertTimer;
    var t := s.mode.expired[s.mode.next];
    assert Flight(s.mode) == [t] + Flight(Passed(s).mode) && t in Flight(s.mode);
    if t.repeat {
      RescheduleNeverCollides(e, s);
    }
  }

  lemma {:induction false} DeadForever(e: nat -> nat, s: State, steps: seq<Step>, id: nat)
    requires Inv(s) && Dead(s, id)
    ensures Dead(Run(e, s, steps), id)
    ensures Times(Run(e, s, steps).hist.fired, id) == Times(s.hist.fired, id)
    decreases |steps|
  {
    if steps != [] {
      var steps' := steps[..|steps| - 1];
      DeadForever(e, s, steps', id);
      RunKeepsInv(e, s, steps');
      StepKeepsDead(e, Run(e, s, steps'), steps[|steps| - 1], id);
    }
  }

  /** After a successful cancel, also one made by a callback in mid-pass, the timer never fires again. */
  lemma CancelledNeverFires(e: nat -> nat, s: State, id: nat, steps: seq<Step>)
    requires Inv(s) && id in s.index
    ensures var s1 := Apply(e, s, Call(CancelTimer(id)));
            Times(Run(e, s1, steps).hist.fired, id) == Times(s.hist.fired, id)
  {
    var s1 := Apply(e, s, Call(CancelTimer(id)));
    StepKeepsInv(e, s, Call(CancelTimer(id)));
    DeadForever(e, s1, steps, id);
  }

  /** `cancelTimer` fails exactly for an id that was never issued, was cancelled, is in the running
      batch, or belongs to a one-shot timer that has fired. */
  lemma CancelFailsExactly(s: State, id: nat)
    requires Inv(s)
    ensures id !in s.index <==>
              || id !in s.hist.created || id in s.hist.cancelled || InFlight(Flight(s.mode), id)
              || (!s.hist.created[id].repeat && Times(s.hist.fired, id) == 1)
  {
    assert PlaceOk(id, s.index, s.mode, s.hist);
  }

  /** A cancel of a timer in the running batch changes nothing, so the timer still has its turn; a
      repeating timer that cancels itself is back in the queue when its callback returns. */
  lemma InFlightSurvivesCancel(e: nat -> nat, s: State, id: nat)
    requires Inv(s) && InFlight(Flight(s.mode), id)
    ensures Apply(e, s, Call(CancelTimer(id))) == s
    ensures Running(s.mode) == Some(id) && s.mode.expired[s.mode.next].repeat ==>
              id in Apply(e, s, EndCallback).index
  {
    if Running(s.mode) == Some(id) && s.mode.expired[s.mode.next].repeat {
      RescheduleNeverCollides(e, s);
    }
  }

  // ---------- Client calls and the descriptor ----------

  /** The descriptor is set for the earliest queued timer, as a distance from the last clock reading, or to the
      smallest value if that timer has expired; it is disarmed if no timer is queued. */
  ghost predicate ArmedNow(s: State) {
    if s.timers == [] then s.armed == None
    else
      exists t :: t in s.timers && (forall x :: x in s.timers ==> t.expiration <= x.expiration) &&
        s.armed == Some(if t.expiration <= s.clock then 1 else t.expiration - s.clock)
  }

  lemma FirstIsEarliest(ts: seq<Timer>, x: Timer)
    requires Sorted(ts) && x in ts
    ensures ts[0].expiration <= x.expiration && (ts[0] == x || Before(ts[0], x))
  {
    var i :| 0 <= i < |ts| && ts[i] == x;
    if i > 0 { SortedPair(ts, 0, i); }
  }

  lemma ResetArms(e: nat -> nat, s: State)
    requires Sorted(s.timers)
    ensures var s' := ResetTimerFd(e, s);
            && ArmedNow(s')
            && s' == s.(clock := s'.clock, readings := s'.readings, armed := s'.armed)
            && s'.readings == s.readings + (if s.timers == [] then 0 else 1)
            && s'.clock == s.clock + if s.timers == [] then 0 else e(s.readings)
  {
    hide SpecFor, SetTime, Sorted;
    var s' := ResetTimerFd(e, s);
    if s.timers != [] {
      var t := s.timers[0];
      SpecExactly(t.expiration, s'.clock);
      forall x | x in s.timers ensures t.expiration <= x.expiration {
        FirstIsEarliest(s.timers, x);
      }
    }
  }

  /** The seconds and nanoseconds written are together the distance, or one nanosecond. */
  lemma SpecExactly(expiration: nat, now: nat)
    ensures SetTime(SpecFor(expiration, now)) == Some(if expiration <= now then 1 else expiration - now)
  {
    if now < expiration {
      var d := expiration - now;
      assert d / 1_000_000_000 * 1_000_000_000 + d % 1_000_000_000 == d;
    }
  }

  /** A timer that enters the queue: it is there, and nothing else has changed; and the descriptor is set anew just
      if the timer expires before all others. */
  ghost predicate Entered(e: nat -> nat, s: State, s': State, t: Timer) {
    && s'.index == s.index[t.id := t] && (forall x :: x in s'.timers <==> x in s.timers || x == t)
    && s'.mode == s.mode && s'.pending == s.pending && s'.nextId == s.nextId && s'.hist == s.hist
    && if (forall x :: x in s.timers ==> t.expiration < x.expiration)
       then ArmedNow(s') && s'.readings == s.readings + 1 && s'.clock == s.clock + e(s.readings)
       else s'.armed == s.armed && s'.readings == s.readings && s'.clock == s.clock
  }

  lemma InsertEnters(e: nat -> nat, s: State, t: Timer)
    requires QueueOk(s.timers, s.index, s.nextId) && t.id !in s.index && 0 < t.id < s.nextId
    ensures Entered(e, s, InsertTimer(e, s, t), t)
  {
    hide SetElement, SetInsert, ResetTimerFd, ArmedNow;
    QueuedContents(s.timers, s.index, s.nextId, t);
    ResetArms(e, Queued(s, t));
    assert (s.timers == [] || t.expiration < s.timers[0].expiration) <==>
           forall x :: x in s.timers ==> t.expiration < x.expiration by { EarliestFirst(s.timers, t); }
  }

  lemma EarliestFirst(ts: seq<Timer>, t: Timer)
    requires Sorted(ts)
    ensures (ts == [] || t.expiration < ts[0].expiration) <==> forall x :: x in ts ==> t.expiration < x.expiration
  {
    hide Sorted;
    forall x | x in ts ensures ts[0].expiration <= x.expiration {
      FirstIsEarliest(ts, x);
    }
  }

  /** `runAfter` and `runEvery`, exactly: an argument out of range changes nothing; any other reads the clock, issues
      the next id, and enters a timer that expires that many milliseconds after the reading. */
  lemma AddIsExact(e: nat -> nat, s: State, delay: int, cb: Callback, repeat: bool)
    requires Inv(s)
    ensures var s' := Apply(e, s, Call(if repeat then RunEvery(delay, cb) else RunAfter(delay, cb)));
            if delay < 0 || (repeat && delay == 0) then s' == s
            else
              var now := s.clock + e(s.readings);
              var t := Timer(now + delay * 1_000_000, if repeat then delay else 0, cb, s.nextId, repeat);
              var issued := s.(clock := now, readings := s.readings + 1, nextId := s.nextId + 1,
                               hist := s.hist.(created := s.hist.created[s.nextId := t]));
              s.nextId !in s.index && Entered(e, issued, s', t)
  {
    hide Inv, InsertTimer, Entered;
    InvIndexable(s);
    if 0 <= delay && !(repeat && delay == 0) {
      var now := s.clock + e(s.readings);
      var t := Timer(now + delay * 1_000_000, if repeat then delay else 0, cb, s.nextId, repeat);
      InsertEnters(e, Issued(Tick(e, s), t), t);
    }
  }

  /** `cancelTimer`, exactly: an id that is not queued changes nothing; else that one timer is gone from the queue and
      the index, nothing else has changed, and the descriptor is set for what is left. */
  lemma CancelIsExact(e: nat -> nat, s: State, id: nat)
    requires Inv(s)
    ensures var s' := Apply(e, s, Call(CancelTimer(id)));
            if id !in s.index then s' == s
            else
              && s'.index == s.index - {id} && (forall x :: x in s'.timers <==> x in s.timers && x.id != id)
              && s'.mode == s.mode && s'.pending == s.pending && s'.nextId == s.nextId
              && s'.hist == s.hist.(cancelled := s.hist.cancelled + {id})
              && ArmedNow(s')
              && s'.readings == s.readings + (if s'.timers == [] then 0 else 1)
              && s'.clock == s.clock + if s'.timers == [] then 0 else e(s.readings)
  {
    hide Inv, SetErase, ResetTimerFd, ArmedNow;
    InvIndexable(s);
    if id in s.index {
      EraseKeepsSetOrder(s.timers, s.index[id]);
      ResetArms(e, Erased(s, id));
    }
  }

  /** The end of a turn, exactly: a repeating timer enters the queue one interval later, a one-shot does not. */
  lemma RescheduleIsExact(e: nat -> nat, s: State)
    requires Inv(s) && s.mode.InPass? && s.mode.running && s.mode.next < |s.mode.expired|
    ensures var t, s' := s.mode.expired[s.mode.next], Apply(e, s, EndCallback);
            var passed := s.(mode := InPass(s.mode.now, s.mode.expired, s.mode.next + 1, false));
            if t.repeat then Entered(e, passed, s', t.(expiration := t.expiration + t.interval * 1_000_000))
            else s' == passed
  {
    hide Inv, InsertTimer, Entered, FlightOk;
    var t := s.mode.expired[s.mode.next];
    InvIndexable(s);
    InvFlight(s);
    if t.repeat {
      FlightIds(s);
      assert 0 < t.id < s.nextId by { FlightIssued(s, t); }
      InsertEnters(e, Passed(s), t.Advanced());
    }
  }

  lemma FlightIssued(s: State, t: Timer)
    requires FlightOk(Flight(s.mode), s.index, s.nextId) && t in Flight(s.mode)
    ensures 0 < t.id < s.nextId
  {
  }

  lemma InvFlight(s: State)
    requires Inv(s)
    ensures FlightOk(Flight(s.mode), s.index, s.nextId)
  {
  }

  /** Both ends of a pass, exactly: the descriptor is read at one clock reading and the time sampled at the next,
      what has expired by then leaves the queue and the index, and its tick is used up; at the end the descriptor
      is set for what is queued by then. */
  lemma PassEndsAreExact(e: nat -> nat, s: State, ok: bool)
    requires Inv(s)
    ensures s.mode.Idle? && ok && Readable(Tick(e, s)) ==>
              var s' := Apply(e, s, BeginPass(ok));
              && s'.clock == s.clock + e(s.readings) + e(s.readings + 1) && s'.readings == s.readings + 2
              && s'.mode == InPass(s'.clock, s'.mode.expired, 0, false) && s'.armed == None
              && (forall x :: x in s'.timers <==> x in s.timers && s'.clock < x.expiration)
              && (forall id :: id in s'.index <==> id in s.index && s'.clock < s.index[id].expiration)
              && s'.pending == s.pending && s'.nextId == s.nextId && s'.hist == s.hist
    ensures s.mode.InPass? && !s.mode.running && s.mode.next == |s.mode.expired| ==>
              var s' := Apply(e, s, EndPass);
              ArmedNow(s') && s'.mode == Idle && s'.timers == s.timers && s'.index == s.index && s'.hist == s.hist &&
              s'.pending == s.pending && s'.nextId == s.nextId
  {
    hide Inv, ResetTimerFd, ArmedNow, CountDue;
    InvIndexable(s);
    ResetArms(e, s.(mode := Idle));
    if s.mode.Idle? && ok && Readable(Tick(e, s)) {
      var s1 := Tick(e, Tick(e, s).(armed := None));
      forall x ensures x in Extract(s1).timers <==> x in s.timers && s1.clock < x.expiration {
        DueSplit(s.timers, s1.clock, x);
      }
      ExtractedIds(s1);
    }
  }

  lemma ExtractedIds(s: State)
    requires QueueOk(s.timers, s.index, s.nextId)
    ensures forall id :: id in Extract(s).index <==> id in s.index && s.clock < s.index[id].expiration
  {
    hide CountDue, Sorted;
    var k := CountDue(s.timers, s.clock);
    forall id | id in s.index ensures id in Extract(s).index <==> s.clock < s.index[id].expiration {
      var t := s.index[id];
      DueSplit(s.timers, s.clock, t);
      if t in s.timers[..k] { assert t.id == id; }
      if id !in Extract(s).index {
        var x :| x in s.timers[..k] && x.id == id;
        assert x in s.timers;
      }
    }
  }

  // ---------- The times in the log ----------

  lemma ClockAdvances(e: nat -> nat, s: State, step: Step)
    ensures s.clock <= Apply(e, s, step).clock
  {
    hide SetInsert, SetElement, SetErase, CountDue, SetTime, SpecFor;
  }

  /** Every firing was logged with the clock of its moment: none in the future, and in order. */
  ghost predicate LogTimed(s: State) {
    && (forall j :: 0 <= j < |s.hist.fired| ==> s.hist.fired[j].at <= s.clock)
    && (forall i, j :: 0 <= i < j < |s.hist.fired| ==> s.hist.fired[i].at <= s.hist.fired[j].at)
  }

  /** The beginning of a turn, exactly: the next timer of the batch runs, and is logged with the clock of now. */
  lemma TurnBeginsExactly(e: nat -> nat, s: State)
    requires s.mode.InPass? && !s.mode.running && s.mode.next < |s.mode.expired|
    ensures Apply(e, s, FireNext) ==
            s.(mode := InPass(s.mode.now, s.mode.expired, s.mode.next, true),
               hist := s.hist.(fired := s.hist.fired + [Firing(s.mode.expired[s.mode.next], s.clock)]))
  {
  }

  /** Only the beginning of a turn adds to the log. */
  lemma OnlyTurnsLog(e: nat -> nat, s: State, step: Step)
    ensures var s' := Apply(e, s, step);
            s'.hist.fired == s.hist.fired ||
            (step == FireNext && s'.clock == s.clock && s.mode.InPass? && s.mode.next < |s.mode.expired| &&
             s'.hist.fired == s.hist.fired + [Firing(s.mode.expired[s.mode.next], s.clock)])
  {
    hide InsertTimer, ResetTimerFd, BeginFiring, Perform;
    match (step, s.mode)
    case (Call(a), _) => CallsKeepMode(e, s, a);
    case (BeginPass(ok), Idle) => BeginKeepsHistory(e, s, ok);
    case (EndCallback, InPass(_, expired, next, running)) =>
      if running && next < |expired| { InsertKeepsHistory(e, Passed(s), expired[next].Advanced()); }
    case (EndPass, _) => ResetKeepsRest(e, s.(mode := Idle));
    case _ =>
  }

  lemma {:induction false} RunKeepsLogTimed(e: nat -> nat, s: State, steps: seq<Step>)
    requires LogTimed(s)
    ensures LogTimed(Run(e, s, steps))
    decreases |steps|
  {
    hide Apply;
    if steps != [] {
      var init, last := steps[..|steps| - 1], steps[|steps| - 1];
      RunKeepsLogTimed(e, s, init);
      ClockAdvances(e, Run(e, s, init), last);
      OnlyTurnsLog(e, Run(e, s, init), last);
    }
  }

  // ---------- Periodic timers ----------

  lemma OccurrenceExpiration(c: Timer, n: nat)
    ensures Occurrence(c, n).expiration == c.expiration + n * (c.interval * NS_PER_MS)
  {
    if n > 0 {
      OccurrenceExpiration(c, n - 1);
      OccurrenceKeepsIdentity(c, n - 1);
    }
  }

  lemma StepKeepsCreated(e: nat -> nat, s: State, step: Step, id: nat)
    requires Inv(s) && id in s.hist.created
    ensures id in Apply(e, s, step).hist.created
    ensures Apply(e, s, step).hist.created[id] == s.hist.created[id]
  {
    hide Inv, InsertTimer, ResetTimerFd, BeginFiring, QueueOk, AddTimer;
    InvIndexable(s);
    assert id != s.nextId by { InvCreated(s); }
    match (step, s.mode)
    case (Call(a), _) =>
      match a {
        case RunAfter(delay, cb) => if delay >= 0 { AddIndexes(e, s, delay, 0, cb, false); }
        case RunEvery(interval, cb) => if interval > 0 { AddIndexes(e, s, interval, interval, cb, true); }
        case CancelTimer(c) => if c in s.index { ResetKeepsRest(e, Erased(s, c)); }
        case _ =>
      }
    case (BeginPass(ok), Idle) => assert BeginFiring(e, s, ok).hist == s.hist by { BeginKeepsHistory(e, s, ok); }
    case (EndCallback, InPass(now, expired, next, running)) =>
      if running && next < |expired| && expired[next].repeat {
        InsertKeepsHistory(e, Passed(s), expired[next].Advanced());
      }
    case (EndPass, _) => ResetKeepsRest(e, s.(mode := Idle));
    case _ =>
  }

  lemma InvCreated(s: State)
    requires Inv(s)
    ensures s.nextId !in s.hist.created
  {
  }

  lemma BeginKeepsHistory(e: nat -> nat, s: State, ok: bool)
    ensures BeginFiring(e, s, ok).hist == s.hist
  {
  }

  lemma InsertKeepsHistory(e: nat -> nat, s: State, t: Timer)
    ensures InsertTimer(e, s, t).hist == s.hist
  {
    hide SetTime, SpecFor, SetInsert, SetElement;
  }

  lemma {:induction false} RunKeepsCreated(e: nat -> nat, s: State, steps: seq<Step>, id: nat)
    requires Inv(s) && id in s.hist.created
    ensures id in Run(e, s, steps).hist.created
    ensures Run(e, s, steps).hist.created[id] == s.hist.created[id]
    decreases |steps|
  {
    if steps != [] {
      var steps' := steps[..|steps| - 1];
      RunKeepsCreated(e, s, steps', id);
      RunKeepsInv(e, s, steps');
      StepKeepsCreated(e, Run(e, s, steps'), steps[|steps| - 1], id);
    }
  }

  lemma EntryExpiration(fired: seq<Firing>, created: map<nat, Timer>, j: nat)
    requires j < |fired| && EntryOk(fired, created, j)
    ensures var c := created[fired[j].timer.id];
            && fired[j].timer.expiration ==
               c.expiration + Times(fired[..j], fired[j].timer.id) * (c.interval * NS_PER_MS)
            && fired[j].timer.callback == c.callback
  {
    var c := created[fired[j].timer.id];
    OccurrenceExpiration(c, Times(fired[..j], fired[j].timer.id));
    OccurrenceKeepsIdentity(c, Times(fired[..j], fired[j].timer.id));
  }

  lemma OneMoreInterval(start: nat, n: nat, d: nat)
    ensures start + d + n * d == start + (n + 1) * d
  {
  }

  /** Periodic timers do not drift: in every continuation of a `runEvery` call made at `start`, the
      firing that follows n earlier ones carries the expiration start + (n + 1) * interval and does not
      happen before it; no occurrence is skipped. */
  lemma PeriodicNeverDrifts(e: nat -> nat, s: State, interval: int, cb: Callback, steps: seq<Step>, j: nat)
    requires Inv(s) && 0 < interval
    requires var log := Run(e, Apply(e, s, Call(RunEvery(interval, cb))), steps).hist.fired;
             j < |log| && log[j].timer.id == s.nextId
    ensures var start := Tick(e, s).clock;
            var log := Run(e, Apply(e, s, Call(RunEvery(interval, cb))), steps).hist.fired;
            var n := Times(log[..j], s.nextId);
            && log[j].timer.expiration == start + (n + 1) * (interval * 1_000_000)
            && log[j].timer.expiration <= log[j].at
            && log[j].timer.callback == cb
  {
    var s1 := Apply(e, s, Call(RunEvery(interval, cb)));
    AddIndexes(e, s, interval, interval, cb, true);
    StepKeepsInv(e, s, Call(RunEvery(interval, cb)));
    RunKeepsCreated(e, s1, steps, s.nextId);
    var s2 := Run(e, s1, steps);
    assert EntryOk(s2.hist.fired, s2.hist.created, j) by { RunKeepsInv(e, s1, steps); }
    EntryExpiration(s2.hist.fired, s2.hist.created, j);
    OneMoreInterval(Tick(e, s).clock, Times(s2.hist.fired[..j], s.nextId), interval * NS_PER_MS);
  }

  /** A one-shot timer fires at most once, with the callback it was given, carrying the expiration
      start + delay and not before it, in every continuation of the `runAfter` call. */
  lemma OneShotFiresOnceOnTime(e: nat -> nat, s: State, delay: nat, cb: Callback, steps: seq<Step>, j: nat)
    requires Inv(s)
    requires var log := Run(e, Apply(e, s, Call(RunAfter(delay, cb))), steps).hist.fired;
             j < |log| && log[j].timer.id == s.nextId
    ensures var log := Run(e, Apply(e, s, Call(RunAfter(delay, cb))), steps).hist.fired;
            && log[j].timer.expiration == Tick(e, s).clock + delay * 1_000_000
            && log[j].timer.expiration <= log[j].at
            && log[j].timer.callback == cb
            && Times(log, s.nextId) <= 1
  {
    hide Inv, Run, AddTimer, QueueOk, Times;
    var s1 := Apply(e, s, Call(RunAfter(delay, cb)));
    InvIndexable(s);
    AddIndexes(e, s, delay, 0, cb, false);
    StepKeepsInv(e, s, Call(RunAfter(delay, cb)));
    RunKeepsCreated(e, s1, steps, s.nextId);
    RunKeepsInv(e, s1, steps);
    var s2 := Run(e, s1, steps);
    InvEntry(s2, j);
    EntryExpiration(s2.hist.fired, s2.hist.created, j);
    InvOneShot(s2, s.nextId);
    OneMoreInterval(0, Times(s2.hist.fired[..j], s.nextId), 0);
  }

  lemma InvEntry(s: State, j: nat)
    requires Inv(s) && j < |s.hist.fired|
    ensures EntryOk(s.hist.fired, s.hist.created, j)
  {
    hide PlaceOk, Descends, EntryOk;
  }

  lemma InvOneShot(s: State, id: nat)
    requires Inv(s) && id in s.hist.created && !s.hist.created[id].repeat
    ensures Times(s.hist.fired, id) <= 1
  {
    assert PlaceOk(id, s.index, s.mode, s.hist);
  }

  /** Until it is cancelled, a repeating timer has exactly one copy across the queue and the batch. */
  lemma PeriodicHasOneCopy(s: State, id: nat)
    requires Inv(s) && id in s.hist.created && s.hist.created[id].repeat && id !in s.hist.cancelled
    ensures var all := s.timers + Flight(s.mode);
            exists i :: 0 <= i < |all| && all[i].id == id && forall j :: 0 <= j < |all| && all[j].id == id ==> j == i
  {
    var all := s.timers + Flight(s.mode);
    OneCopyEach(s);
    assert PlaceOk(id, s.index, s.mode, s.hist);
    assert exists t :: t in all && t.id == id by {
      if id in s.index { assert s.index[id] in all; }
    }
    var t :| t in all && t.id == id;
    var i :| 0 <= i < |all| && all[i] == t;
    assert forall j :: 0 <= j < |all| && all[j].id == id ==> j == i;
  }

  // ---------- Deferred tasks ----------

  /** Over every run the enqueued tasks are the executed ones, then those of the batch being drained,
      then the pending ones, in enqueue order: each runs once and none is lost. */
  lemma TasksConserved(e: nat -> nat, clock: nat, steps: seq<Step>)
    requires 0 < clock
    ensures var s := Run(e, Init(clock), steps);
            && s.hist.enqueued == s.hist.executed + Undrained(s.mode) + s.pending
  {
    var s := Run(e, Init(clock), steps);
    assert TasksOk(s.pending, s.mode, s.hist.enqueued, s.hist.executed) by {
      InitInv(clock);
      RunKeepsInv(e, Init(clock), steps);
    }
  }

  lemma InvTasks(s: State)
    requires Inv(s)
    ensures s.hist.enqueued == s.hist.executed + Undrained(s.mode) + s.pending
  {
    assert TasksOk(s.pending, s.mode, s.hist.enqueued, s.hist.executed);
  }

  ghost predicate DrainLog(base: seq<Callback>, batch: seq<Callback>, s: State) {
    s.mode.Draining? && s.mode.tasks == batch && s.mode.done <= |batch| &&
    s.hist.executed == base + batch[..s.mode.done]
  }

  lemma {:induction false} RunKeepsDrainLog(e: nat -> nat, s: State, steps: seq<Step>, base: seq<Callback>,
                                            batch: seq<Callback>)
    requires DrainLog(base, batch, s) && EndTasks !in steps
    ensures DrainLog(base, batch, Run(e, s, steps))
    decreases |steps|
  {
    if steps != [] {
      var s1 := Run(e, s, steps[..|steps| - 1]);
      RunKeepsDrainLog(e, s, steps[..|steps| - 1], base, batch);
      var step := steps[|steps| - 1];
      if step.Call? { CallsKeepMode(e, s1, step.action); }
      assert step == NextTask && s1.mode.done < |batch| ==>
          batch[..s1.mode.done + 1] == batch[..s1.mode.done] + [batch[s1.mode.done]];
    }
  }

  /** One task phase executes exactly the tasks that were pending when it began, in order; a task that
      is enqueued meanwhile waits for a later phase, so re-enqueueing cannot trap the loop. */
  lemma TaskPhaseIsExact(e: nat -> nat, s: State, steps: seq<Step>)
    requires Inv(s) && s.mode.Idle? && s.pending != [] && EndTasks !in steps
    requires Run(e, Apply(e, s, BeginTasks), steps + [EndTasks]).mode.Idle?
    ensures var s' := Run(e, Apply(e, s, BeginTasks), steps + [EndTasks]);
            && s'.hist.executed == s.hist.executed + s.pending
            && s'.hist.enqueued == s.hist.enqueued + s'.pending
  {
    hide Inv, Run, Perform, FinishCallback, StartCallback, BeginFiring, ResetTimerFd;
    var s1 := Apply(e, s, BeginTasks);
    var s' := Run(e, s1, steps + [EndTasks]);
    RunKeepsDrainLog(e, s1, steps, s.hist.executed, s.pending);
    RunOne(e, s1, steps, EndTasks);
    StepKeepsInv(e, s, BeginTasks);
    RunKeepsInv(e, s1, steps + [EndTasks]);
    assert s.pending[..|s.pending|] == s.pending;
    InvTasks(s);
    InvTasks(s');
  }

  lemma {:induction false} RunKeepsEnqueued(e: nat -> nat, s: State, steps: seq<Step>)
    ensures s.hist.enqueued <= Run(e, s, steps).hist.enqueued
    decreases |steps|
  {
    hide Apply;
    if steps != [] {
      RunKeepsEnqueued(e, s, steps[..|steps| - 1]);
      StepKeepsEnqueued(e, Run(e, s, steps[..|steps| - 1]), steps[|steps| - 1]);
    }
  }

  lemma StepKeepsEnqueued(e: nat -> nat, s: State, step: Step)
    ensures s.hist.enqueued <= Apply(e, s, step).hist.enqueued
  {
    hide SetTime, SpecFor, SetInsert, SetElement, SetErase, CountDue;
  }
}
