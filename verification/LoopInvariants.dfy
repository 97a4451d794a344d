/** Invariants of the event loop that hold in every state of every run, whatever the callbacks do. */
module LoopInvariants {
  import opened Results
  import opened TimerQueue
  import opened LoopModel

  // ---------- The timer index ----------

  /** The ordered set and the id index describe the same timers; their ids have been issued. */
  ghost predicate QueueOk(timers: seq<Timer>, index: map<nat, Timer>, nextId: nat) {
    && Sorted(timers)
    && (forall t :: t in timers ==> t.id in index && index[t.id] == t)
    && (forall id :: id in index ==> index[id] in timers && index[id].id == id && 0 < id < nextId)
  }

  /** The extracted timers that the running pass has not finished with; the first may be running. */
  function Flight(mode: Mode): seq<Timer> {
    if mode.InPass? && mode.next <= |mode.expired| then mode.expired[mode.next..] else []
  }

  /** The id of the timer whose callback is executing. */
  function Running(mode: Mode): Option<nat> {
    if mode.InPass? && mode.running && mode.next < |mode.expired| then Some(mode.expired[mode.next].id) else None
  }

  predicate InFlight(flight: seq<Timer>, id: nat) {
    exists t :: t in flight && t.id == id
  }

  ghost predicate DistinctIds(ts: seq<Timer>) {
    forall i, j :: 0 <= i < j < |ts| ==> ts[i].id != ts[j].id
  }

  /** The timers of an in-flight batch are not in the index, so rescheduling one cannot collide. */
  ghost predicate FlightOk(flight: seq<Timer>, index: map<nat, Timer>, nextId: nat) {
    && DistinctIds(flight)
    && (forall t :: t in flight ==> t.id !in index && 0 < t.id < nextId)
  }

  ghost predicate ModeOk(mode: Mode, clock: nat) {
    match mode
    case Idle => true
    case InPass(now, expired, next, running) =>
      && next <= |expired| && (running ==> next < |expired|) && now <= clock
      && (forall t :: t in expired ==> t.expiration <= now)
    case Draining(tasks, done) => done <= |tasks|
  }

  // ---------- Wake-up ----------

  ghost predicate Positive(ts: seq<Timer>) {
    forall t :: t in ts ==> 0 < t.expiration
  }

  /** The descriptor is armed only if a timer is queued, and then, outside a firing pass, no later than the
      earliest expiration. */
  predicate Awake(timers: seq<Timer>, mode: Mode, armed: Option<nat>) {
    if timers == [] then armed == None
    else !mode.InPass? ==> armed.Some? && armed.value <= timers[0].expiration
  }

  // ---------- History ----------

  /** The timer `c` after it has been rescheduled `n` times. */
  function Occurrence(c: Timer, n: nat): Timer {
    if n == 0 then c else Occurrence(c, n - 1).Advanced()
  }

  /** How often timer `id` has fired. */
  function Times(fired: seq<Firing>, id: nat): nat {
    if fired == [] then 0
    else Times(fired[..|fired| - 1], id) + if fired[|fired| - 1].timer.id == id then 1 else 0
  }

  ghost predicate CreatedOk(created: map<nat, Timer>, nextId: nat) {
    && 0 < nextId
    && (forall id :: id in created <==> 0 < id < nextId)
    && (forall id :: id in created ==> created[id].id == id && (created[id].repeat <==> 0 < created[id].interval))
  }

  /** `t` is the occurrence of its original that its firings account for; the running timer's
      current firing is already counted. */
  ghost predicate Descends(t: Timer, h: History, running: Option<nat>) {
    && t.id in h.created
    && var n := Times(h.fired, t.id) - if running == Some(t.id) then 1 else 0;
       0 <= n && t == Occurrence(h.created[t.id], n)
  }

  ghost predicate LineageOk(ts: seq<Timer>, h: History, running: Option<nat>) {
    forall t :: t in ts ==> Descends(t, h, running)
  }

  /** Every entry of the log is the next occurrence of its timer, and did not come early. */
  ghost predicate LogOk(fired: seq<Firing>, created: map<nat, Timer>) {
    forall j :: 0 <= j < |fired| ==> EntryOk(fired, created, j)
  }

  ghost predicate EntryOk(fired: seq<Firing>, created: map<nat, Timer>, j: nat)
    requires j < |fired|
  {
    var f := fired[j];
    && f.timer.id in created
    && f.timer == Occurrence(created[f.timer.id], Times(fired[..j], f.timer.id))
    && f.timer.expiration <= f.at
  }

  /** Where an issued timer is: queued, in flight, cancelled, or a one-shot that has fired. */
  ghost predicate PlaceOk(id: nat, index: map<nat, Timer>, mode: Mode, h: History) {
    var inFlight := InFlight(Flight(mode), id);
    var fired := Times(h.fired, id);
    && (id in h.cancelled ==> id !in index && !inFlight && id in h.created)
    && (id in h.created ==>
          && (id in index || inFlight || id in h.cancelled || (!h.created[id].repeat && fired == 1))
          && (!h.created[id].repeat ==>
                && fired <= 1
                && (id in index || (inFlight && Running(mode) != Some(id)) ==> fired == 0)))
  }

  // ---------- Deferred tasks ----------

  /** The tasks of the batch being drained that have not run yet. */
  function Undrained(mode: Mode): seq<Callback> {
    if mode.Draining? && mode.done <= |mode.tasks| then mode.tasks[mode.done..] else []
  }

  /** Every task ever enqueued has been executed, is in the batch being drained, or is pending; in order. */
  ghost predicate TasksOk(pending: seq<Callback>, mode: Mode, enqueued: seq<Callback>, executed: seq<Callback>) {
    enqueued == executed + Undrained(mode) + pending
  }

  /** Everything but the wake-up guarantee, and but the places of the timers in `except`. */
  ghost predicate Core(s: State, except: set<nat>) {
    && 0 < s.clock
    && QueueOk(s.timers, s.index, s.nextId)
    && FlightOk(Flight(s.mode), s.index, s.nextId)
    && ModeOk(s.mode, s.clock)
    && Positive(s.timers) && Positive(Flight(s.mode))
    && CreatedOk(s.hist.created, s.nextId)
    && LineageOk(s.timers, s.hist, None) && LineageOk(Flight(s.mode), s.hist, Running(s.mode))
    && LogOk(s.hist.fired, s.hist.created)
    && TasksOk(s.pending, s.mode, s.hist.enqueued, s.hist.executed)
    && (forall id: nat :: id !in except ==> PlaceOk(id, s.index, s.mode, s.hist))
  }

  ghost predicate Inv(s: State) {
    Core(s, {}) && Awake(s.timers, s.mode, s.armed)
  }

  // ---------- Setting the timer descriptor ----------

  /** The value written to the descriptor never disarms it and is never later than the expiration. */
  lemma SpecNeverLate(expiration: nat, now: nat)
    requires 0 < expiration
    ensures SetTime(SpecFor(expiration, now)).Some?
    ensures SetTime(SpecFor(expiration, now)).value <= expiration
    ensures now < expiration ==> SetTime(SpecFor(expiration, now)).value == expiration - now
  {
    if now < expiration {
      var d := expiration - now;
      assert d == d / NS_PER_SEC * NS_PER_SEC + d % NS_PER_SEC;
    }
  }

  /** Re-arming the descriptor restores the whole invariant. */
  lemma ResetRestoresInv(e: nat -> nat, s: State)
    requires Core(s, {})
    ensures Inv(ResetTimerFd(e, s))
  {
    if s.timers != [] {
      SpecNeverLate(s.timers[0].expiration, Tick(e, s).clock);
    }
  }

  // ---------- Inserting a timer ----------

  /** `t` may enter the queue: its id is neither queued nor in flight, and it is the next occurrence. */
  ghost predicate MayEnter(s: State, t: Timer) {
    && t.id !in s.index && !InFlight(Flight(s.mode), t.id) && t.id !in s.hist.cancelled
    && Descends(t, s.hist, None) && 0 < t.expiration
    && (t.repeat || Times(s.hist.fired, t.id) == 0)
  }

  lemma OccurrenceKeepsIdentity(c: Timer, n: nat)
    ensures Occurrence(c, n) == c.(expiration := Occurrence(c, n).expiration)
  {
  }

  /** An insertion that may take place does: no equivalent element is in the way. */
  lemma QueuedContents(timers: seq<Timer>, index: map<nat, Timer>, nextId: nat, t: Timer)
    requires QueueOk(timers, index, nextId) && t.id !in index && 0 < t.id < nextId
    ensures SetElement(timers, t) == t
    ensures QueueOk(SetInsert(timers, t), index[t.id := t], nextId)
    ensures forall x :: x in SetInsert(timers, t) <==> x in timers || x == t
  {
    InsertKeepsSetOrder(timers, t);
    InsertFresh(timers, t);
  }

  lemma QueuedKeepsPlace(s: State, t: Timer, id: nat)
    requires MayEnter(s, t) && CreatedOk(s.hist.created, s.nextId)
    requires id == t.id || PlaceOk(id, s.index, s.mode, s.hist)
    ensures PlaceOk(id, s.index[t.id := t], s.mode, s.hist)
  {
    OccurrenceKeepsIdentity(s.hist.created[t.id], Times(s.hist.fired, t.id));
  }

  lemma QueuedKeepsCore(s: State, t: Timer)
    requires Core(s, {t.id}) && MayEnter(s, t)
    ensures Core(Queued(s, t), {})
    ensures forall x :: x in Queued(s, t).timers <==> x in s.timers || x == t
  {
    var s' := Queued(s, t);
    QueuedContents(s.timers, s.index, s.nextId, t);
    assert s'.index == s.index[t.id := t];
    forall id: nat ensures PlaceOk(id, s'.index, s'.mode, s'.hist) {
      QueuedKeepsPlace(s, t, id);
    }
  }

  /** Inserting keeps the invariant although the descriptor is re-armed only for a new earliest timer. */
  lemma InsertKeepsInv(e: nat -> nat, s: State, t: Timer)
    requires Core(s, {t.id}) && MayEnter(s, t) && Awake(s.timers, s.mode, s.armed)
    ensures Inv(InsertTimer(e, s, t))
  {
    hide LogOk, FlightOk, ModeOk, LineageOk, PlaceOk, CreatedOk, TasksOk, MayEnter;
    var s' := Queued(s, t);
    QueuedKeepsCore(s, t);
    if s.timers == [] || t.expiration < s.timers[0].expiration {
      ResetRestoresInv(e, s');
    } else {
      assert s'.timers[0] == s.timers[0] || s'.timers[0] == t;
    }
  }

  // ---------- runAfter and runEvery ----------

  lemma {:induction false} NeverFired(fired: seq<Firing>, id: nat)
    requires forall j :: 0 <= j < |fired| ==> fired[j].timer.id != id
    ensures Times(fired, id) == 0
    decreases |fired|
  {
    if fired != [] { NeverFired(fired[..|fired| - 1], id); }
  }

  lemma IssuedKeepsLineage(ts: seq<Timer>, h: History, running: Option<nat>, t: Timer)
    requires LineageOk(ts, h, running) && t.id !in h.created
    ensures LineageOk(ts, h.(created := h.created[t.id := t]), running)
  {
    var h' := h.(created := h.created[t.id := t]);
    forall x | x in ts ensures Descends(x, h', running) {
      assert Descends(x, h, running);
    }
  }

  lemma IssuedKeepsLog(fired: seq<Firing>, created: map<nat, Timer>, t: Timer)
    requires LogOk(fired, created) && t.id !in created
    ensures LogOk(fired, created[t.id := t]) && Times(fired, t.id) == 0
  {
    var created' := created[t.id := t];
    forall j | 0 <= j < |fired| ensures EntryOk(fired, created', j) {
      assert EntryOk(fired, created, j);
    }
    forall j | 0 <= j < |fired| ensures fired[j].timer.id != t.id {
      assert EntryOk(fired, created, j);
    }
    NeverFired(fired, t.id);
  }

  lemma IssuedKeepsPlace(s: State, t: Timer, id: nat)
    requires PlaceOk(id, s.index, s.mode, s.hist) && id != t.id
    ensures PlaceOk(id, s.index, s.mode, Issued(s, t).hist)
  {
  }

  lemma IssuedKeepsCore(s: State, t: Timer)
    requires Core(s, {}) && t.id == s.nextId && (t.repeat <==> 0 < t.interval) && 0 < t.expiration
    ensures Core(Issued(s, t), {t.id}) && MayEnter(Issued(s, t), t)
  {
    hide LogOk, LineageOk, Times;
    var s' := Issued(s, t);
    IssuedKeepsLineage(s.timers, s.hist, None, t);
    IssuedKeepsLineage(Flight(s.mode), s.hist, Running(s.mode), t);
    IssuedKeepsLog(s.hist.fired, s.hist.created, t);
    assert PlaceOk(t.id, s.index, s.mode, s.hist);
    forall id: nat | id != t.id ensures PlaceOk(id, s'.index, s'.mode, s'.hist) {
      IssuedKeepsPlace(s, t, id);
    }
  }

  lemma IssuedInsertKeepsInv(e: nat -> nat, s: State, t: Timer)
    requires Inv(s) && t.id == s.nextId && (t.repeat <==> 0 < t.interval) && 0 < t.expiration
    ensures Inv(InsertTimer(e, Issued(s, t), t))
  {
    IssuedKeepsCore(s, t);
    InsertKeepsInv(e, Issued(s, t), t);
  }

  lemma TickKeepsInv(e: nat -> nat, s: State)
    requires Inv(s)
    ensures Inv(Tick(e, s))
  {
  }

  lemma AddKeepsInv(e: nat -> nat, s: State, delay: nat, interval: nat, cb: Callback, repeat: bool)
    requires Inv(s) && (repeat <==> 0 < interval)
    ensures Inv(AddTimer(e, s, delay, interval, cb, repeat))
  {
    var s1 := Tick(e, s);
    var t := Timer(s1.clock + delay * NS_PER_MS, interval, cb, s.nextId, repeat);
    TickKeepsInv(e, s);
    IssuedInsertKeepsInv(e, s1, t);
  }

  // ---------- cancelTimer and runInLoop ----------

  lemma ErasedKeepsPlace(s: State, id: nat, other: nat)
    requires Core(s, {}) && id in s.index
    ensures PlaceOk(other, Erased(s, id).index, s.mode, Erased(s, id).hist)
  {
    hide LogOk, TasksOk, ModeOk, LineageOk, Times;
    assert PlaceOk(other, s.index, s.mode, s.hist);
    assert PlaceOk(id, s.index, s.mode, s.hist);
  }

  lemma ErasedKeepsQueue(s: State, id: nat)
    requires QueueOk(s.timers, s.index, s.nextId) && id in s.index
    ensures QueueOk(Erased(s, id).timers, Erased(s, id).index, s.nextId)
    ensures forall t :: t in Erased(s, id).timers ==> t in s.timers
  {
    EraseKeepsSetOrder(s.timers, s.index[id]);
  }

  /** Timers keep their lineage as long as nothing fires and no id is issued. */
  lemma LineageInherited(ts: seq<Timer>, ts': seq<Timer>, h: History, h': History, running: Option<nat>)
    requires LineageOk(ts, h, running) && Positive(ts) && h'.created == h.created && h'.fired == h.fired
    requires forall t :: t in ts' ==> t in ts
    ensures LineageOk(ts', h', running) && Positive(ts')
  {
    forall t | t in ts' ensures Descends(t, h', running) {
      assert Descends(t, h, running);
    }
  }

  lemma ErasedKeepsCore(s: State, id: nat)
    requires Core(s, {}) && id in s.index
    ensures Core(Erased(s, id), {})
  {
    hide LogOk, CreatedOk, PlaceOk, LineageOk, Positive, QueueOk, SetErase;
    var s' := Erased(s, id);
    ErasedKeepsQueue(s, id);
    LineageInherited(s.timers, s'.timers, s.hist, s'.hist, None);
    LineageInherited(Flight(s.mode), Flight(s.mode), s.hist, s'.hist, Running(s.mode));
    forall other: nat ensures PlaceOk(other, s'.index, s'.mode, s'.hist) {
      ErasedKeepsPlace(s, id, other);
    }
  }

  /** Two states that differ only in tasks and their history. */
  lemma SameTimersKeepsInv(s: State, s': State)
    requires Inv(s) && TasksOk(s'.pending, s'.mode, s'.hist.enqueued, s'.hist.executed) && ModeOk(s'.mode, s.clock)
    requires s' == s.(pending := s'.pending, mode := s'.mode,
                      hist := s.hist.(enqueued := s'.hist.enqueued, executed := s'.hist.executed))
    requires s'.mode == s.mode || (!s.mode.InPass? && !s'.mode.InPass?)
    ensures Inv(s')
  {
    hide LogOk, CreatedOk, LineageOk, Positive, QueueOk, TasksOk;
    LineageInherited(s.timers, s'.timers, s.hist, s'.hist, None);
    LineageInherited(Flight(s.mode), Flight(s'.mode), s.hist, s'.hist, Running(s.mode));
    forall id: nat ensures PlaceOk(id, s'.index, s'.mode, s'.hist) {
      assert PlaceOk(id, s.index, s.mode, s.hist);
    }
  }

  lemma CancelKeepsInv(e: nat -> nat, s: State, id: nat)
    requires Inv(s) && id in s.index
    ensures Inv(Perform(e, s, CancelTimer(id)))
  {
    hide Core, Awake;
    assert Core(s, {});
    ErasedKeepsCore(s, id);
    ResetRestoresInv(e, Erased(s, id));
  }

  lemma DeferKeepsInv(e: nat -> nat, s: State, task: Callback)
    requires Inv(s)
    ensures Inv(Perform(e, s, RunInLoop(task)))
  {
    hide QueueOk, FlightOk, LineageOk, LogOk, PlaceOk, CreatedOk, Positive;
    SameTimersKeepsInv(s, Perform(e, s, RunInLoop(task)));
  }

  lemma PerformKeepsInv(e: nat -> nat, s: State, a: Action)
    requires Inv(s)
    ensures Inv(Perform(e, s, a))
  {
    hide Inv, AddTimer, ResetTimerFd;
    match a
    case RunAfter(delay, cb) => if delay >= 0 { AddKeepsInv(e, s, delay, 0, cb, false); }
    case RunEvery(interval, cb) => if interval > 0 { AddKeepsInv(e, s, interval, interval, cb, true); }
    case CancelTimer(id) => if id in s.index { CancelKeepsInv(e, s, id); }
    case RunInLoop(task) => DeferKeepsInv(e, s, task);
    case ReadClock => TickKeepsInv(e, s);
  }

  // ---------- handleTimerRead ----------

  /** What an extraction at the clock's present reading takes, and what it leaves. */
  lemma ExtractSplits(s: State)
    requires Sorted(s.timers)
    ensures var s' := Extract(s);
            && Sorted(s'.timers) && Sorted(Flight(s'.mode)) && (forall t :: t in Flight(s'.mode) ==> t in s.timers)
            && (forall t :: t in s.timers ==> (t in s'.timers <==> t !in Flight(s'.mode)))
            && (forall t :: t in s'.timers ==> t in s.timers)
            && s'.index == s.index - (set t | t in Flight(s'.mode) :: t.id)
  {
    var s', k := Extract(s), CountDue(s.timers, s.clock);
    SortedParts(s.timers, k);
    hide Sorted, CountDue;
    assert Flight(s'.mode) == s.timers[..k];
    forall t | t in s.timers ensures t in s.timers[k..] <==> t !in s.timers[..k] {
      DueSplit(s.timers, s.clock, t);
    }
  }

  /** Taking some timers out of the queue and their ids out of the index. */
  lemma TakenIds(timers: seq<Timer>, index: map<nat, Timer>, nextId: nat, taken: seq<Timer>, rest: map<nat, Timer>,
                 id: nat)
    requires QueueOk(timers, index, nextId) && (forall t :: t in taken ==> t in timers)
    requires rest == index - (set t | t in taken :: t.id)
    ensures id in rest ==> id in index && rest[id] == index[id] && index[id] !in taken
    ensures id in index && id !in rest ==> index[id] in taken && index[id].id == id
    ensures id in rest ==> !InFlight(taken, id)
  {
    hide Sorted;
    if id in index && id !in rest {
      var t :| t in taken && t.id == id;
      assert index[t.id] == t;
    }
  }

  lemma TakenQueue(timers: seq<Timer>, index: map<nat, Timer>, nextId: nat, taken: seq<Timer>, left: seq<Timer>,
                   rest: map<nat, Timer>)
    requires QueueOk(timers, index, nextId) && (forall t :: t in taken ==> t in timers)
    requires Sorted(left) && (forall t :: t in left ==> t in timers && t !in taken)
    requires forall t :: t in timers && t !in taken ==> t in left
    requires rest == index - (set t | t in taken :: t.id)
    ensures QueueOk(left, rest, nextId)
  {
    hide Sorted, InFlight;
    forall t | t in left ensures t.id in rest && rest[t.id] == t {
      TakenIds(timers, index, nextId, taken, rest, t.id);
    }
    forall id | id in rest ensures rest[id] in left && rest[id].id == id && 0 < id < nextId {
      TakenIds(timers, index, nextId, taken, rest, id);
    }
  }

  lemma ExtractKeepsQueue(s: State)
    requires QueueOk(s.timers, s.index, s.nextId)
    ensures var s' := Extract(s);
            && QueueOk(s'.timers, s'.index, s'.nextId)
            && (forall t :: t in Flight(s'.mode) ==> t in s.timers && t.id !in s'.index)
            && (forall id :: id in s.index ==> id in s'.index || InFlight(Flight(s'.mode), id))
            && (forall id :: id in s'.index ==> id in s.index && !InFlight(Flight(s'.mode), id))
  {
    var s' := Extract(s);
    ExtractSplits(s);
    assert s'.nextId == s.nextId;
    var taken := Flight(s'.mode);
    TakenQueue(s.timers, s.index, s.nextId, taken, s'.timers, s'.index);
    hide Extract, Flight, QueueOk, InFlight;
    forall id: nat
      ensures id in s.index ==> id in s'.index || InFlight(taken, id)
      ensures id in s'.index ==> id in s.index && !InFlight(taken, id)
    {
      TakenIds(s.timers, s.index, s.nextId, taken, s'.index, id);
      if id in s.index && id !in s'.index { assert InFlight(taken, id) by { InFlightMeans(taken, s.index[id]); } }
    }
    forall t | t in taken ensures t.id !in s'.index {
      InFlightMeans(taken, t);
    }
  }

  lemma InFlightMeans(flight: seq<Timer>, t: Timer)
    requires t in flight
    ensures InFlight(flight, t.id)
  {
  }

  lemma SortedIdsDistinct(ts: seq<Timer>, index: map<nat, Timer>, nextId: nat, k: nat)
    requires QueueOk(ts, index, nextId) && k <= |ts|
    ensures DistinctIds(ts[..k])
  {
    forall i, j | 0 <= i < j < k ensures ts[i].id != ts[j].id {
      assert Before(ts[i], ts[j]);
      assert ts[i] in ts && ts[j] in ts;
    }
  }

  lemma ExtractKeepsPlace(s: State, id: nat)
    requires QueueOk(s.timers, s.index, s.nextId) && s.mode.Idle? && PlaceOk(id, s.index, s.mode, s.hist)
    ensures PlaceOk(id, Extract(s).index, Extract(s).mode, s.hist)
  {
    ExtractKeepsQueue(s);
    assert Running(Extract(s).mode) == None;
  }

  lemma ExtractKeepsFlight(s: State)
    requires QueueOk(s.timers, s.index, s.nextId)
    ensures FlightOk(Flight(Extract(s).mode), Extract(s).index, s.nextId) && ModeOk(Extract(s).mode, s.clock)
  {
    var k := CountDue(s.timers, s.clock);
    ExtractKeepsQueue(s);
    assert Flight(Extract(s).mode) == s.timers[..k];
    SortedIdsDistinct(s.timers, s.index, s.nextId, k);
    forall t | t in s.timers[..k] ensures t.expiration <= s.clock {
      DueSplit(s.timers, s.clock, t);
    }
  }

  lemma ExtractKeepsCore(s: State)
    requires Core(s, {}) && s.mode.Idle?
    ensures Core(Extract(s), {})
  {
    hide LogOk, CreatedOk, PlaceOk, FlightOk, ModeOk, LineageOk, Positive, QueueOk, CountDue;
    var s' := Extract(s);
    assert (forall t :: t in s'.timers ==> t in s.timers) && (forall t :: t in Flight(s'.mode) ==> t in s.timers) by {
      ExtractKeepsQueue(s);
    }
    assert QueueOk(s'.timers, s'.index, s'.nextId) by { ExtractKeepsQueue(s); }
    LineageInherited(s.timers, s'.timers, s.hist, s'.hist, None);
    LineageInherited(s.timers, Flight(s'.mode), s.hist, s'.hist, None);
    ExtractKeepsFlight(s);
    forall id: nat ensures PlaceOk(id, s'.index, s'.mode, s'.hist) {
      assert PlaceOk(id, s.index, s.mode, s.hist);
      ExtractKeepsPlace(s, id);
    }
  }

  lemma TimesAppend(fired: seq<Firing>, f: Firing, id: nat)
    ensures Times(fired + [f], id) == Times(fired, id) + if f.timer.id == id then 1 else 0
  {
    assert (fired + [f])[..|fired|] == fired;
  }

  lemma LogAppend(fired: seq<Firing>, f: Firing, created: map<nat, Timer>)
    requires LogOk(fired, created) && f.timer.id in created
    requires f.timer == Occurrence(created[f.timer.id], Times(fired, f.timer.id)) && f.timer.expiration <= f.at
    ensures LogOk(fired + [f], created)
  {
    var fired' := fired + [f];
    forall j | 0 <= j < |fired'| ensures EntryOk(fired', created, j) {
      if j < |fired| {
        assert EntryOk(fired, created, j);
        assert fired'[..j] == fired[..j];
      } else {
        assert fired'[..j] == fired;
      }
    }
  }

  /** A timer keeps its lineage when another one fires, and the firing one keeps it as the running timer. */
  lemma FiringKeepsLineage(t: Timer, h: History, head: Timer, at: nat)
    requires Descends(t, h, None) && (t == head || t.id != head.id)
    ensures var h' := h.(fired := h.fired + [Firing(head, at)]);
            Descends(t, h', Some(head.id)) && (t != head ==> Descends(t, h', None))
  {
    hide Times, Occurrence;
    TimesAppend(h.fired, Firing(head, at), t.id);
  }

  /** The timer whose turn it is heads the flight. */
  lemma FlightHead(mode: Mode)
    requires mode.InPass? && mode.next < |mode.expired|
    ensures Flight(mode) == [mode.expired[mode.next]] + Flight(mode.(next := mode.next + 1, running := false))
    ensures Flight(mode)[0] == mode.expired[mode.next]
  {
    assert mode.expired[mode.next..] == [mode.expired[mode.next]] + mode.expired[mode.next + 1..];
  }

  lemma FlightIds(s: State)
    requires FlightOk(Flight(s.mode), s.index, s.nextId) && s.mode.InPass? && s.mode.next < |s.mode.expired|
    ensures var head := s.mode.expired[s.mode.next];
            && head in Flight(s.mode) && head.id !in s.index
            && (forall t :: t in Flight(s.mode) ==> t == head || t.id != head.id)
            && (forall t :: t in Flight(Passed(s).mode) ==> t in Flight(s.mode) && t.id != head.id)
            && DistinctIds(Flight(Passed(s).mode))
  {
    hide Flight, DistinctIds;
    FlightHead(s.mode);
    DistinctHead(s.mode.expired[s.mode.next], Flight(Passed(s).mode));
  }

  lemma DistinctHead(head: Timer, rest: seq<Timer>)
    requires DistinctIds([head] + rest)
    ensures DistinctIds(rest) && forall t :: t in rest ==> t.id != head.id
  {
    var all := [head] + rest;
    assert forall i :: 0 <= i < |rest| ==> rest[i] == all[i + 1];
    forall t | t in rest ensures t.id != head.id {
      var i :| 0 <= i < |rest| && rest[i] == t;
      assert all[0].id != all[i + 1].id;
    }
  }

  lemma StartKeepsLineage(s: State)
    requires Core(s, {}) && s.mode.InPass? && !s.mode.running && s.mode.next < |s.mode.expired|
    ensures var s' := StartCallback(s);
            LineageOk(s.timers, s'.hist, None) && LineageOk(Flight(s'.mode), s'.hist, Running(s'.mode))
  {
    hide LogOk, TasksOk, ModeOk, PlaceOk, CreatedOk, FlightOk, Descends, Flight, Positive;
    var s' := StartCallback(s);
    var head := s.mode.expired[s.mode.next];
    FlightIds(s);
    assert Flight(s'.mode) == Flight(s.mode) by { StartKeepsFlight(s); }
    assert Running(s.mode) == None;
    forall t | t in s.timers ensures Descends(t, s'.hist, None) {
      assert Descends(t, s.hist, None);
      FiringKeepsLineage(t, s.hist, head, s.clock);
    }
    forall t | t in Flight(s.mode) ensures Descends(t, s'.hist, Running(s'.mode)) {
      assert Descends(t, s.hist, None);
      FiringKeepsLineage(t, s.hist, head, s.clock);
    }
  }

  lemma StartKeepsFlight(s: State)
    requires s.mode.InPass? && s.mode.next < |s.mode.expired|
    ensures Flight(StartCallback(s).mode) == Flight(s.mode)
  {
  }

  lemma StartKeepsPlace(s: State, id: nat)
    requires Core(s, {}) && s.mode.InPass? && !s.mode.running && s.mode.next < |s.mode.expired|
    ensures var s' := StartCallback(s); PlaceOk(id, s'.index, s'.mode, s'.hist)
  {
    hide LogOk, TasksOk, QueueOk, ModeOk, FlightOk, Times, Flight;
    var s' := StartCallback(s);
    var head := s.mode.expired[s.mode.next];
    FlightIds(s);
    StartKeepsFlight(s);
    TimesAppend(s.hist.fired, Firing(head, s.clock), id);
    assert PlaceOk(id, s.index, s.mode, s.hist);
    assert InFlight(Flight(s.mode), head.id);
  }

  lemma StartKeepsInv(s: State)
    requires Inv(s) && s.mode.InPass? && !s.mode.running && s.mode.next < |s.mode.expired|
    ensures Inv(StartCallback(s))
  {
    hide QueueOk, FlightOk, LineageOk, LogOk, PlaceOk, CreatedOk, Positive, Flight;
    var s' := StartCallback(s);
    var head := s.mode.expired[s.mode.next];
    StartKeepsFlight(s);
    StartKeepsLineage(s);
    StartKeepsLog(s);
    forall id: nat ensures PlaceOk(id, s'.index, s'.mode, s'.hist) {
      StartKeepsPlace(s, id);
    }
  }

  lemma StartKeepsLog(s: State)
    requires Core(s, {}) && s.mode.InPass? && !s.mode.running && s.mode.next < |s.mode.expired|
    ensures LogOk(StartCallback(s).hist.fired, s.hist.created)
  {
    hide QueueOk, FlightOk, LogOk, PlaceOk, CreatedOk, TasksOk, Times, Occurrence;
    var head := s.mode.expired[s.mode.next];
    FlightIds(s);
    assert Descends(head, s.hist, Running(s.mode));
    assert head.expiration <= s.clock by { assert head in s.mode.expired; }
    LogAppend(s.hist.fired, Firing(head, s.clock), s.hist.created);
  }

  lemma PassedKeepsPlace(s: State, id: nat)
    requires Core(s, {}) && s.mode.InPass? && s.mode.running && s.mode.next < |s.mode.expired|
    requires var t := s.mode.expired[s.mode.next]; id != t.id || !t.repeat
    ensures PlaceOk(id, s.index, Passed(s).mode, s.hist)
  {
    hide LogOk, TasksOk, QueueOk, ModeOk, FlightOk, Times, Occurrence, Flight;
    var t := s.mode.expired[s.mode.next];
    FlightIds(s);
    assert Flight(s.mode) == [t] + Flight(Passed(s).mode) by { FlightHead(s.mode); }
    assert Descends(t, s.hist, Running(s.mode));
    OccurrenceKeepsIdentity(s.hist.created[t.id], Times(s.hist.fired, t.id) - 1);
    assert PlaceOk(id, s.index, s.mode, s.hist);
  }

  lemma PassedMayEnter(s: State)
    requires Core(s, {}) && s.mode.InPass? && s.mode.running && s.mode.next < |s.mode.expired|
    requires s.mode.expired[s.mode.next].repeat
    ensures MayEnter(Passed(s), s.mode.expired[s.mode.next].Advanced())
  {
    hide LogOk, TasksOk, QueueOk, ModeOk, FlightOk, Times, Flight;
    var t := s.mode.expired[s.mode.next];
    FlightIds(s);
    assert Descends(t, s.hist, Running(s.mode));
    OccurrenceKeepsIdentity(s.hist.created[t.id], Times(s.hist.fired, t.id) - 1);
    assert PlaceOk(t.id, s.index, s.mode, s.hist);
  }

  lemma PassedKeepsFlight(s: State)
    requires Core(s, {}) && s.mode.InPass? && s.mode.running && s.mode.next < |s.mode.expired|
    ensures var flight := Flight(Passed(s).mode);
            && FlightOk(flight, s.index, s.nextId) && Positive(flight)
            && LineageOk(flight, s.hist, None)
  {
    hide LogOk, TasksOk, QueueOk, ModeOk, CreatedOk, PlaceOk, Times, Occurrence, Flight, DistinctIds;
    FlightIds(s);
    forall t | t in Flight(Passed(s).mode) ensures Descends(t, s.hist, None) {
      assert Descends(t, s.hist, Running(s.mode));
    }
  }

  lemma PassedKeepsCore(s: State)
    requires Core(s, {}) && s.mode.InPass? && s.mode.running && s.mode.next < |s.mode.expired|
    ensures var t := s.mode.expired[s.mode.next]; Core(Passed(s), if t.repeat then {t.id} else {})
  {
    hide LogOk, QueueOk, FlightOk, LineageOk, PlaceOk, CreatedOk;
    var t := s.mode.expired[s.mode.next];
    var s' := Passed(s);
    PassedKeepsFlight(s);
    forall id: nat | id != t.id || !t.repeat ensures PlaceOk(id, s'.index, s'.mode, s'.hist) {
      PassedKeepsPlace(s, id);
    }
  }

  lemma FinishKeepsInv(e: nat -> nat, s: State)
    requires Inv(s) && s.mode.InPass? && s.mode.running && s.mode.next < |s.mode.expired|
    ensures Inv(FinishCallback(e, s))
  {
    var t := s.mode.expired[s.mode.next];
    PassedKeepsCore(s);
    if t.repeat {
      PassedMayEnter(s);
      InsertKeepsInv(e, Passed(s), t.Advanced());
    }
  }

  // ---------- Every run ----------

  lemma BeginPassKeepsInv(e: nat -> nat, s: State, ok: bool)
    requires Inv(s) && s.mode.Idle?
    ensures Inv(BeginFiring(e, s, ok))
  {
    hide Extract, Core;
    var atRead := Tick(e, s);
    TickKeepsInv(e, s);
    if ok && Readable(atRead) {
      var s1 := Tick(e, atRead.(armed := None));
      assert Core(s1, {}) by { CoreIgnoresDescriptor(e, atRead); }
      ExtractKeepsCore(s1);
      ExtractEntersPass(s1);
    }
  }

  lemma CoreIgnoresDescriptor(e: nat -> nat, s: State)
    requires Core(s, {}) && !s.mode.InPass?
    ensures Core(Tick(e, s.(armed := None)), {})
  {
    hide QueueOk, FlightOk, LineageOk, LogOk, PlaceOk, CreatedOk, Positive, TasksOk;
  }

  lemma ExtractEntersPass(s: State)
    ensures Extract(s).mode.InPass? && Extract(s).armed == s.armed
  {
  }

  lemma TaskStepKeepsTasks(e: nat -> nat, s: State, step: Step)
    requires TasksOk(s.pending, s.mode, s.hist.enqueued, s.hist.executed) && ModeOk(s.mode, s.clock)
    requires step.BeginTasks? || step.NextTask? || step.EndTasks?
    ensures var s' := Apply(e, s, step);
            TasksOk(s'.pending, s'.mode, s'.hist.enqueued, s'.hist.executed) && ModeOk(s'.mode, s.clock)
  {
    hide Perform, BeginFiring, StartCallback, FinishCallback, ResetTimerFd;
    match (step, s.mode)
    case (BeginTasks, Idle) =>
      assert s.pending[0..] == s.pending;
      assert s.hist.executed + [] + s.pending == s.hist.executed + s.pending + [];
    case (NextTask, Draining(tasks, done)) =>
      if done < |tasks| {
        assert s.hist.executed + tasks[done..] + s.pending ==
               s.hist.executed + [tasks[done]] + tasks[done + 1..] + s.pending;
      }
    case _ =>
  }

  lemma TaskStepKeepsInv(e: nat -> nat, s: State, step: Step)
    requires Inv(s) && (step.BeginTasks? || step.NextTask? || step.EndTasks?)
    ensures Inv(Apply(e, s, step))
  {
    hide QueueOk, FlightOk, LineageOk, LogOk, PlaceOk, CreatedOk, Positive, TasksOk, ModeOk, Awake, Flight, Running;
    TaskStepKeepsTasks(e, s, step);
    var s' := Apply(e, s, step);
    if s' != s {
      SameTimersKeepsInv(s, s');
    }
  }

  lemma StepKeepsInv(e: nat -> nat, s: State, step: Step)
    requires Inv(s)
    ensures Inv(Apply(e, s, step))
  {
    hide Inv, Perform, BeginFiring, StartCallback, FinishCallback, ResetTimerFd;
    match (step, s.mode)
    case (Call(a), _) => PerformKeepsInv(e, s, a);
    case (BeginPass(ok), Idle) => BeginPassKeepsInv(e, s, ok);
    case (FireNext, InPass(now, expired, next, running)) =>
      if !running && next < |expired| { StartKeepsInv(s); }
    case (EndCallback, InPass(now, expired, next, running)) =>
      if running && next < |expired| { FinishKeepsInv(e, s); }
    case (EndPass, InPass(now, expired, next, running)) =>
      if !running && next == |expired| { EndPassKeepsInv(e, s); }
    case (BeginTasks, Idle) => TaskStepKeepsInv(e, s, step);
    case (NextTask, Draining(tasks, done)) => TaskStepKeepsInv(e, s, step);
    case (EndTasks, Draining(tasks, done)) => TaskStepKeepsInv(e, s, step);
    case _ =>
  }

  lemma EndPassKeepsInv(e: nat -> nat, s: State)
    requires Inv(s) && s.mode.InPass? && !s.mode.running && s.mode.next == |s.mode.expired|
    ensures Inv(ResetTimerFd(e, s.(mode := Idle)))
  {
    var s' := s.(mode := Idle);
    assert Flight(s.mode) == [];
    forall id: nat ensures PlaceOk(id, s'.index, s'.mode, s'.hist) {
      assert PlaceOk(id, s.index, s.mode, s.hist);
    }
    ResetRestoresInv(e, s');
  }

  lemma InitInv(clock: nat)
    requires 0 < clock
    ensures Inv(Init(clock))
  {
  }

  /** The invariant holds after every run from a state in which it holds. */
  lemma {:induction false} RunKeepsInv(e: nat -> nat, s: State, steps: seq<Step>)
    requires Inv(s)
    ensures Inv(Run(e, s, steps))
    decreases |steps|
  {
    if steps != [] {
      var steps' := steps[..|steps| - 1];
      RunKeepsInv(e, s, steps');
      StepKeepsInv(e, Run(e, s, steps'), steps[|steps| - 1]);
    }
  }
}
