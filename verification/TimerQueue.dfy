/** Timers, their order, and the ordered set that the event loop keeps them in.
    The `std::set` is a strictly sorted sequence; insertion and erasure are its library operations. */
module TimerQueue {

  /** A `std::function<void()>`.  The loop never looks inside one; what a callback does when it is
      invoked is decided elsewhere.  The last two are the continuations that a capture replay schedules. */
  datatype Callback = Empty | Client(tag: nat) | ReplayBatch | ReplayFlood

  const NS_PER_MS: nat := 1_000_000
  const NS_PER_SEC: nat := 1_000_000_000

  /** Instants are nanoseconds of the monotonic clock; intervals are milliseconds, zero if one-shot. */
  datatype Timer = Timer(expiration: nat, interval: nat, callback: Callback, id: nat, repeat: bool) {
    /** The timer after `t.expiration += t.interval`. */
    function Advanced(): Timer {
      this.(expiration := expiration + interval * NS_PER_MS)
    }
  }

  /** `Timer::operator<`: earliest expiration first, then lowest id. */
  predicate Before(a: Timer, b: Timer) {
    if a.expiration != b.expiration then a.expiration < b.expiration else a.id < b.id
  }

  /** Earlier expirations come first, and of equal ones the lower id. */
  ghost predicate Sorted(ts: seq<Timer>) {
    forall i, j :: 0 <= i < j < |ts| ==>
      ts[i].expiration < ts[j].expiration || (ts[i].expiration == ts[j].expiration && ts[i].id < ts[j].id)
  }

  /** `std::set::insert`: nothing is inserted when an equivalent element is present. */
  function SetInsert(ts: seq<Timer>, t: Timer): seq<Timer> {
    if ts == [] then [t]
    else if Before(t, ts[0]) then [t] + ts
    else if Before(ts[0], t) then [ts[0]] + SetInsert(ts[1..], t)
    else ts
  }

  /** The element that the iterator returned by `std::set::insert` refers to. */
  function SetElement(ts: seq<Timer>, t: Timer): Timer {
    if ts == [] || Before(t, ts[0]) then t
    else if Before(ts[0], t) then SetElement(ts[1..], t)
    else ts[0]
  }

  /** `std::set::erase` of an element. */
  function SetErase(ts: seq<Timer>, t: Timer): seq<Timer> {
    if ts == [] then []
    else if ts[0] == t then ts[1..]
    else [ts[0]] + SetErase(ts[1..], t)
  }

  /** How many timers at the front have expired at `now`. */
  function CountDue(ts: seq<Timer>, now: nat): (k: nat)
    ensures k <= |ts|
    ensures forall i :: 0 <= i < k ==> ts[i].expiration <= now
    ensures k < |ts| ==> ts[k].expiration > now
  {
    if ts == [] || ts[0].expiration > now then 0 else 1 + CountDue(ts[1..], now)
  }

  lemma SortedHead(ts: seq<Timer>)
    requires Sorted(ts) && ts != []
    ensures Sorted(ts[1..]) && (forall x :: x in ts[1..] ==> Before(ts[0], x))
    ensures forall x :: x in ts <==> x == ts[0] || x in ts[1..]
  {
    forall x | x in ts[1..] ensures Before(ts[0], x) {
      var i :| 0 <= i < |ts[1..]| && ts[1..][i] == x;
    }
    assert ts == [ts[0]] + ts[1..];
  }

  lemma SortedCons(t: Timer, ts: seq<Timer>)
    requires Sorted(ts) && forall x :: x in ts ==> Before(t, x)
    ensures Sorted([t] + ts)
  {
    var all := [t] + ts;
    forall i, j | 0 <= i < j < |all|
      ensures all[i].expiration < all[j].expiration ||
              (all[i].expiration == all[j].expiration && all[i].id < all[j].id)
    {
      assert all[j] == ts[j - 1];
      if i == 0 { assert Before(t, all[j]); } else { assert all[i] == ts[i - 1]; }
    }
  }

  lemma {:induction false} InsertKeepsSetOrder(ts: seq<Timer>, t: Timer)
    requires Sorted(ts)
    ensures Sorted(SetInsert(ts, t))
    ensures |ts| <= |SetInsert(ts, t)|
    ensures forall x :: x in SetInsert(ts, t) ==> x in ts || x == t
    ensures forall x :: x in ts ==> x in SetInsert(ts, t)
    ensures SetElement(ts, t) in SetInsert(ts, t)
    ensures SetElement(ts, t) == t || SetElement(ts, t) in ts
    decreases |ts|
  {
    if ts == [] {
      SortedCons(t, []);
    } else {
      SortedHead(ts);
      InsertKeepsSetOrder(ts[1..], t);
      hide Sorted;
      if Before(t, ts[0]) {
        SortedCons(t, ts);
      } else if Before(ts[0], t) {
        SortedCons(ts[0], SetInsert(ts[1..], t));
      }
    }
  }

  /** With a fresh id the insertion takes place and returns the new element. */
  lemma {:induction false} InsertFresh(ts: seq<Timer>, t: Timer)
    requires forall x :: x in ts ==> x.id != t.id
    ensures t in SetInsert(ts, t) && SetElement(ts, t) == t
    decreases |ts|
  {
    if ts != [] {
      assert ts[0] in ts;
      InsertFresh(ts[1..], t);
    }
  }

  lemma {:induction false} EraseKeepsSetOrder(ts: seq<Timer>, t: Timer)
    requires Sorted(ts)
    ensures Sorted(SetErase(ts, t))
    ensures forall x :: x in SetErase(ts, t) <==> x in ts && x != t
    decreases |ts|
  {
    if ts != [] {
      SortedHead(ts);
      EraseKeepsSetOrder(ts[1..], t);
      hide Sorted;
      if ts[0] != t {
        SortedCons(ts[0], SetErase(ts[1..], t));
      }
    }
  }

  lemma {:induction false} DuePrefixUnique(ts: seq<Timer>, now: nat, k: nat)
    requires k <= |ts| && (forall t :: t in ts[..k] ==> t.expiration <= now)
    requires k < |ts| ==> now < ts[k].expiration
    ensures k == CountDue(ts, now)
    decreases |ts|
  {
    if k > 0 {
      assert ts[0] in ts[..k];
      assert ts[1..][..k - 1] == ts[..k][1..];
      DuePrefixUnique(ts[1..], now, k - 1);
    }
  }

  lemma SortedParts(ts: seq<Timer>, k: nat)
    requires Sorted(ts) && k <= |ts|
    ensures Sorted(ts[..k]) && Sorted(ts[k..])
  {
  }

  /** In a sorted queue every timer after the expired prefix is still in the future. */
  lemma AfterDue(ts: seq<Timer>, now: nat, i: nat)
    requires Sorted(ts) && CountDue(ts, now) <= i < |ts|
    ensures now < ts[i].expiration
  {
    var k := CountDue(ts, now);
    assert i > k ==> Before(ts[k], ts[i]);
  }

  /** Splitting a sorted queue at `CountDue` separates exactly the expired timers. */
  lemma DueSplit(ts: seq<Timer>, now: nat, x: Timer)
    requires Sorted(ts)
    ensures x in ts[..CountDue(ts, now)] <==> x in ts && x.expiration <= now
    ensures x in ts[CountDue(ts, now)..] <==> x in ts && now < x.expiration
  {
    hide CountDue, Sorted;
    var k := CountDue(ts, now);
    if x in ts {
      var i :| 0 <= i < |ts| && ts[i] == x;
      if i < k {
        assert ts[..k][i] == x;
      } else {
        assert ts[k..][i - k] == x;
        AfterDue(ts, now, i);
      }
    }
    if x in ts[k..] {
      var i :| 0 <= i < |ts[k..]| && ts[k..][i] == x;
      AfterDue(ts, now, k + i);
    }
  }
}
