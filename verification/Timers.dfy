/**
 The timer queue: Timer.h and AppContext::addTimer, checkTimers (libs/rMlib/include/UI/AppContext.h:20-56).

 Timers are shared between the queue and the handles of their owners, so they live in a store and both refer to them
 by number.
 */
module Timers {
  import opened Options
  import opened Geometry

  datatype Timer = Timer(triggerTime: int, repeat: Option<int>, enabled: bool) {
    predicate Repeats() { repeat.Some? }

    function Reset(now: int): Timer
      requires Repeats()
    {
      this.(triggerTime := now + repeat.value)
    }

    function Disable(): Timer { this.(enabled := false, repeat := None) }
  }

  /** What a callback may do to the queue: add a timer, or drop the handle of the `timer`-th timer ever made. */
  datatype Action = Add(delay: int, repeat: Option<int>) | Drop(timer: nat)

  predicate PositiveRepeat(repeat: Option<int>) { repeat.Some? ==> repeat.value > 0 }

  predicate Positive(a: Action) { a.Add? ==> a.delay > 0 && PositiveRepeat(a.repeat) }

  // ----- Queue order

  ghost predicate Distinct(s: seq<nat>) {
    forall i, j | 0 <= i < j < |s| :: s[i] != s[j]
  }

  function TimeOf(store: seq<Timer>, t: nat): int { if t < |store| then store[t].triggerTime else 0 }

  /** A priority queue: the front is an earliest timer, the others come in any order. */
  ghost predicate IsQueue(store: seq<Timer>, queue: seq<nat>) {
    && Distinct(queue) && (queue != [] ==> queue[0] < |store|)
    && forall t | t in queue :: t < |store| && TimeOf(store, queue[0]) <= TimeOf(store, t)
  }

  ghost predicate StoreOk(store: seq<Timer>) {
    forall t | 0 <= t < |store| :: PositiveRepeat(store[t].repeat) && (!store[t].enabled ==> store[t].repeat == None)
  }

  // ----- What callbacks do, and what a sweep over the queue has done so far

  /** A callback adds timers due later and disables any timers; the front of the queue stays where it is. */
  ghost predicate CallbackEffect(store: seq<Timer>, queue: seq<nat>, now: int, store': seq<Timer>, queue': seq<nat>) {
    && |store| <= |store'|
    && (forall t | 0 <= t < |store| :: store'[t] == store[t] || store'[t] == store[t].Disable())
    && (forall t | |store| <= t < |store'| :: store'[t].triggerTime > now)
    && (forall t: nat :: t in queue' <==> t in queue || |store| <= t < |store'|)
    && queue != [] && queue' != [] && queue'[0] == queue[0]
  }

  /** The timers that a callback makes, in order. */
  function Made(actions: seq<Action>, now: int): seq<Timer> {
    if actions == [] then []
    else
      var last := actions[|actions| - 1];
      Made(actions[..|actions| - 1], now) + if last.Add? then [Timer(now + last.delay, last.repeat, true)] else []
  }

  /** The callback drops the handle of timer `t`, which is there already; `count` timers were there when it started. */
  ghost predicate Drops(actions: seq<Action>, now: int, count: nat, t: nat) {
    exists i | 0 <= i < |actions| :: actions[i] == Drop(t) && t < count + |Made(actions[..i], now)|
  }

  /** The store has the new timers at its end, and exactly the dropped timers are disabled. */
  ghost predicate Performed(actions: seq<Action>, now: int, store: seq<Timer>, store': seq<Timer>) {
    var all := store + Made(actions, now);
    && |store'| == |all|
    && forall t | 0 <= t < |all| ::
         store'[t] == if Drops(actions, now, |store|, t) then all[t].(enabled := false, repeat := None) else all[t]
  }

  lemma NothingPerformed(now: int, store: seq<Timer>)
    ensures Performed([], now, store, store)
  {
  }

  lemma PerformOne(actions: seq<Action>, now: int, store: seq<Timer>, mid: seq<Timer>, store': seq<Timer>)
    requires actions != [] && Performed(actions[..|actions| - 1], now, store, mid)
    requires match actions[|actions| - 1]
             case Add(delay, repeat) => store' == mid + [Timer(now + delay, repeat, true)]
             case Drop(t) => store' == if t < |mid| then mid[t := mid[t].Disable()] else mid
    ensures Performed(actions, now, store, store')
  {
    var (init, last) := (actions[..|actions| - 1], actions[|actions| - 1]);
    var before := store + Made(init, now);
    forall t: nat ensures Drops(actions, now, |store|, t) <==> Drops(init, now, |store|, t) || (last == Drop(t) && t < |before|) {
      DropsOne(actions, now, |store|, t);
    }
    forall t: nat | Drops(init, now, |store|, t) ensures t < |before| {
      MadeGrows(init, now, |store|, t);
    }
    hide Drops;
  }

  lemma DropsOne(actions: seq<Action>, now: int, count: nat, t: nat)
    requires actions != []
    ensures var (init, last) := (actions[..|actions| - 1], actions[|actions| - 1]);
            Drops(actions, now, count, t) <==> Drops(init, now, count, t) || (last == Drop(t) && t < count + |Made(init, now)|)
  {
    var init := actions[..|actions| - 1];
    forall i | 0 <= i < |init| ensures init[..i] == actions[..i] && init[i] == actions[i] {}
  }

  lemma MadeGrows(actions: seq<Action>, now: int, count: nat, t: nat)
    requires Drops(actions, now, count, t)
    ensures t < count + |Made(actions, now)|
  {
    var i :| 0 <= i < |actions| && actions[i] == Drop(t) && t < count + |Made(actions[..i], now)|;
    MadePrefix(actions, now, i);
  }

  lemma {:induction false} MadePrefix(actions: seq<Action>, now: int, i: nat)
    requires i <= |actions|
    ensures |Made(actions[..i], now)| <= |Made(actions, now)|
  {
    if i < |actions| {
      var init := actions[..|actions| - 1];
      MadePrefix(init, now, i);
      assert init[..i] == actions[..i];
    } else {
      assert actions[..i] == actions;
    }
  }

  /** Only due, enabled timers of the old queue have fired, each once, in order of their trigger times. */
  ghost predicate FiredOk(store0: seq<Timer>, queue0: seq<nat>, now: int, store: seq<Timer>, queue: seq<nat>, fired: seq<nat>) {
    && Distinct(fired)
    && (forall t | t in fired :: t in queue0 && t < |store0| && store0[t].triggerTime <= now && store0[t].enabled)
    && (forall i, j | 0 <= i < j < |fired| :: TimeOf(store0, fired[i]) <= TimeOf(store0, fired[j]))
    && (forall f, t | f in fired && t in queue && TimeOf(store, t) <= now :: TimeOf(store0, f) <= TimeOf(store, t))
  }

  /** Timers that have not fired keep their time, no timer is enabled again, and new ones are due later. */
  ghost predicate StoreKept(store0: seq<Timer>, now: int, store: seq<Timer>, fired: seq<nat>) {
    && |store0| <= |store|
    && (forall t | 0 <= t < |store0| && t !in fired :: store[t].triggerTime == store0[t].triggerTime)
    && (forall t | 0 <= t < |store0| && store[t].enabled :: store0[t].enabled && store[t].repeat == store0[t].repeat)
    && (forall t | |store0| <= t < |store| :: store[t].triggerTime > now)
  }

  /** The queue loses only disabled timers and fired ones that do not repeat; repeating ones are due later. */
  ghost predicate QueueKept(store0: seq<Timer>, queue0: seq<nat>, now: int, store: seq<Timer>, queue: seq<nat>, fired: seq<nat>)
    requires |store0| <= |store|
  {
    && (forall t | t in queue && t < |store0| :: t in queue0)
    && (forall t | t in queue0 && t < |store0| && t !in fired :: t in queue || !store[t].enabled)
    && (forall t | t in fired && t in queue && t < |store0| ::
          store0[t].repeat.Some? && store[t].triggerTime == now + store0[t].repeat.value)
    && (forall t | t in fired && t !in queue && t < |store0| && store[t].enabled :: store0[t].repeat == None)
    && (forall t: nat | |store0| <= t < |store| && store[t].enabled :: t in queue)
  }

  /** State of checkTimers, given store and queue at its start, after the timers in `fired` have fired. */
  ghost predicate Swept(store0: seq<Timer>, queue0: seq<nat>, now: int, store: seq<Timer>, queue: seq<nat>, fired: seq<nat>) {
    && FiredOk(store0, queue0, now, store, queue, fired)
    && StoreKept(store0, now, store, fired)
    && QueueKept(store0, queue0, now, store, queue, fired)
  }

  lemma SweepStart(store: seq<Timer>, queue: seq<nat>, now: int)
    ensures Swept(store, queue, now, store, queue, [])
  {
  }

  /** After popping the front timer, which is queued again for later if it repeats. */
  ghost predicate Requeued(store: seq<Timer>, queue: seq<nat>, now: int, store': seq<Timer>, queue': seq<nat>)
    requires queue != [] && queue[0] < |store|
  {
    var top := queue[0];
    && store' == (if store[top].Repeats() then store[top := store[top].Reset(now)] else store)
    && forall t: nat :: t in queue' <==> t in queue && (t != top || store[top].Repeats())
  }

  /** A disabled front timer is dropped. */
  lemma SweepDrop(store0: seq<Timer>, queue0: seq<nat>, now: int, store: seq<Timer>, queue: seq<nat>, fired: seq<nat>,
                  store': seq<Timer>, queue': seq<nat>)
    requires Swept(store0, queue0, now, store, queue, fired) && IsQueue(store, queue) && StoreOk(store)
    requires queue != [] && !store[queue[0]].enabled
    requires Requeued(store, queue, now, store', queue')
    ensures Swept(store0, queue0, now, store', queue', fired)
  {
  }

  /** A due front timer fires, and is popped or queued again. */
  lemma SweepFire(store0: seq<Timer>, queue0: seq<nat>, now: int, store: seq<Timer>, queue: seq<nat>, fired: seq<nat>,
                  store1: seq<Timer>, queue1: seq<nat>, store': seq<Timer>, queue': seq<nat>)
    requires StoreOk(store0) && Swept(store0, queue0, now, store, queue, fired) && IsQueue(store, queue) && StoreOk(store1)
    requires queue != [] && store[queue[0]].enabled && store[queue[0]].triggerTime <= now
    requires CallbackEffect(store, queue, now, store1, queue1) && Requeued(store1, queue1, now, store', queue')
    ensures Swept(store0, queue0, now, store', queue', fired + [queue[0]])
  {
    FiredGrows(store0, queue0, now, store, queue, fired, store1, queue1, store', queue');
    StoreGrows(store0, queue0, now, store, queue, fired, store1, queue1, store', queue');
    QueueGrows(store0, queue0, now, store, queue, fired, store1, queue1, store', queue');
  }

  lemma FiredGrows(store0: seq<Timer>, queue0: seq<nat>, now: int, store: seq<Timer>, queue: seq<nat>, fired: seq<nat>,
                   store1: seq<Timer>, queue1: seq<nat>, store': seq<Timer>, queue': seq<nat>)
    requires StoreOk(store0) && Swept(store0, queue0, now, store, queue, fired) && IsQueue(store, queue) && StoreOk(store1)
    requires queue != [] && store[queue[0]].enabled && store[queue[0]].triggerTime <= now
    requires CallbackEffect(store, queue, now, store1, queue1) && Requeued(store1, queue1, now, store', queue')
    ensures FiredOk(store0, queue0, now, store', queue', fired + [queue[0]])
  {
    assert queue[0] in queue && queue[0] !in fired;
    forall t | t in queue' && TimeOf(store', t) <= now
      ensures t in queue && t != queue[0] && TimeOf(store', t) == TimeOf(store, t) {}
    hide Requeued, CallbackEffect, StoreKept, QueueKept;
  }

  lemma StoreGrows(store0: seq<Timer>, queue0: seq<nat>, now: int, store: seq<Timer>, queue: seq<nat>, fired: seq<nat>,
                   store1: seq<Timer>, queue1: seq<nat>, store': seq<Timer>, queue': seq<nat>)
    requires StoreOk(store0) && Swept(store0, queue0, now, store, queue, fired) && IsQueue(store, queue) && StoreOk(store1)
    requires queue != [] && store[queue[0]].enabled && store[queue[0]].triggerTime <= now
    requires CallbackEffect(store, queue, now, store1, queue1) && Requeued(store1, queue1, now, store', queue')
    ensures StoreKept(store0, now, store', fired + [queue[0]])
  {
  }

  lemma QueueGrows(store0: seq<Timer>, queue0: seq<nat>, now: int, store: seq<Timer>, queue: seq<nat>, fired: seq<nat>,
                   store1: seq<Timer>, queue1: seq<nat>, store': seq<Timer>, queue': seq<nat>)
    requires StoreOk(store0) && Swept(store0, queue0, now, store, queue, fired) && IsQueue(store, queue) && StoreOk(store1)
    requires queue != [] && store[queue[0]].enabled && store[queue[0]].triggerTime <= now
    requires CallbackEffect(store, queue, now, store1, queue1) && Requeued(store1, queue1, now, store', queue')
    ensures |store0| <= |store'| && QueueKept(store0, queue0, now, store', queue', fired + [queue[0]])
  {
  }

  /** The queued timers whose time has come; their number bounds how often a callback can still run. */
  ghost function Due(store: seq<Timer>, queue: seq<nat>, now: int): set<nat> {
    set t | t in queue && TimeOf(store, t) <= now
  }

  lemma FireShrinksDue(store: seq<Timer>, queue: seq<nat>, now: int, store1: seq<Timer>, queue1: seq<nat>,
                       store': seq<Timer>, queue': seq<nat>)
    requires IsQueue(store, queue) && StoreOk(store1)
    requires queue != [] && TimeOf(store, queue[0]) <= now
    requires CallbackEffect(store, queue, now, store1, queue1) && Requeued(store1, queue1, now, store', queue')
    ensures |Due(store', queue', now)| < |Due(store, queue, now)|
  {
    assert Due(store', queue', now) == Due(store, queue, now) - {queue[0]};
  }

  lemma DropKeepsDue(store: seq<Timer>, queue: seq<nat>, now: int, store': seq<Timer>, queue': seq<nat>)
    requires IsQueue(store, queue) && StoreOk(store) && queue != [] && !store[queue[0]].enabled
    requires Requeued(store, queue, now, store', queue')
    ensures |Due(store', queue', now)| <= |Due(store, queue, now)|
  {
    assert Due(store', queue', now) == Due(store, queue, now) - {queue[0]};
  }

  /** What a finished sweep means for one timer. */
  lemma AfterSweep(store0: seq<Timer>, queue0: seq<nat>, now: int, store: seq<Timer>, queue: seq<nat>, fired: seq<nat>,
                   t: nat)
    requires t < |store0| && Swept(store0, queue0, now, store, queue, fired)
    requires forall x | x in queue :: TimeOf(store, x) > now
    ensures multiset(fired)[t] <= 1
    // a due timer has fired unless an earlier callback disabled it
    ensures t in queue0 && store0[t].triggerTime <= now && store0[t].enabled ==> t in fired || !store[t].enabled
    // a timer that was not due, or not enabled, has not fired
    ensures t !in queue0 || store0[t].triggerTime > now || !store0[t].enabled ==> t !in fired
    // whatever is still enabled is still queued, a fired timer only if it repeats
    ensures t in queue0 && store[t].enabled && (t in fired ==> store0[t].Repeats()) ==> t in queue
    ensures t in fired && !store0[t].Repeats() ==> t !in queue
  {
    OncePerTimer(fired, t);
  }

  lemma {:induction false} OncePerTimer(s: seq<nat>, t: nat)
    requires Distinct(s)
    ensures multiset(s)[t] <= 1
  {
    if s != [] {
      OncePerTimer(s[1..], t);
      assert s == [s[0]] + s[1..];
    }
  }

  /** Without its front, and with an earliest remaining timer moved there, a queue is a queue of the other timers. */
  lemma BroughtToFront(store: seq<Timer>, queue: seq<nat>, m: nat)
    requires IsQueue(store, queue) && |queue| > 1 && m < |queue[1..]|
    requires forall t | t in queue[1..] :: TimeOf(store, queue[1..][m]) <= TimeOf(store, t)
    ensures var (rest, front) := (queue[1..], queue[1..][m]);
            var popped := [front] + rest[..m] + rest[m + 1..];
            && IsQueue(store, popped) && |popped| == |queue| - 1
            && forall t: nat :: t in popped <==> t in queue && t != queue[0]
  {
    PoppedMembers(queue, m);
    StillDistinct(queue[1..], m);
    hide TimeOf, Distinct;
    var popped := [queue[1..][m]] + queue[1..][..m] + queue[1..][m + 1..];
    assert popped[0] == queue[1..][m];
    assert popped[0] in popped;
    forall t | t in popped ensures t < |store| && TimeOf(store, popped[0]) <= TimeOf(store, t) {
      assert t in queue[1..] && t in queue;
    }
  }

  lemma PoppedMembers(queue: seq<nat>, m: nat)
    requires Distinct(queue) && |queue| > 1 && m < |queue[1..]|
    ensures Distinct(queue[1..])
    ensures var popped := [queue[1..][m]] + queue[1..][..m] + queue[1..][m + 1..];
            forall t: nat :: (t in popped <==> t in queue[1..]) && (t in popped <==> t in queue && t != queue[0])
  {
    var rest := queue[1..];
    SameMembers(rest, m);
    assert queue == [queue[0]] + rest;
    assert forall i | 0 <= i < |rest| :: rest[i] == queue[i + 1];
  }

  lemma StillDistinct(s: seq<nat>, m: nat)
    requires m < |s| && Distinct(s)
    ensures Distinct([s[m]] + s[..m] + s[m + 1..])
  {
    var moved := [s[m]] + s[..m] + s[m + 1..];
    assert forall k | 0 <= k < |moved| :: moved[k] == s[if k == 0 then m else if k <= m then k - 1 else k];
  }

  lemma SameMembers(s: seq<nat>, m: nat)
    requires m < |s|
    ensures forall t :: t in [s[m]] + s[..m] + s[m + 1..] <==> t in s
  {
    assert s == s[..m] + [s[m]] + s[m + 1..];
  }

  // ----- The context

  class AppContext {
    var store: seq<Timer>            // every timer ever made; a handle is a number in it
    var timers: seq<nat>             // the queue
    var callbacks: seq<seq<Action>>  // what the callbacks still to be run will do, in the order of their runs
    ghost var fired: seq<nat>        // the timers fired by the last checkTimers, in order

    ghost predicate Valid()
      reads this
    {
      StoreOk(store) && IsQueue(store, timers) && forall c, a | c in callbacks && a in c :: Positive(a)
    }

    constructor (callbacks: seq<seq<Action>>)
      requires forall c, a | c in callbacks && a in c :: Positive(a)
      ensures Valid() && store == [] && timers == [] && this.callbacks == callbacks
    {
      store, timers, fired := [], [], [];
      this.callbacks := callbacks;
    }

    /** std::priority_queue::emplace: the front changes only for a strictly earlier timer. */
    method Emplace(t: nat)
      requires t < |store| && t !in timers && IsQueue(store, timers)
      modifies this`timers
      ensures IsQueue(store, timers) && forall x: nat :: x in timers <==> x == t || x in old(timers)
      ensures old(timers) != [] && TimeOf(store, old(timers)[0]) <= TimeOf(store, t) ==> timers[0] == old(timers)[0]
      ensures |timers| == |old(timers)| + 1
    {
      if timers != [] && store[timers[0]].triggerTime <= store[t].triggerTime {
        timers := timers + [t];
      } else {
        timers := [t] + timers;
      }
    }

    /** std::priority_queue::pop: removes the front and brings an earliest remaining timer there. */
    method Pop()
      requires timers != [] && IsQueue(store, timers)
      modifies this`timers
      ensures IsQueue(store, timers)
      ensures forall x: nat :: x in timers <==> x in old(timers) && x != old(timers)[0]
      ensures |timers| == |old(timers)| - 1
    {
      var rest := timers[1..];
      if rest == [] { timers := []; return; }
      assert forall t | t in rest :: t in timers;
      var m := EarliestOf(rest);
      BroughtToFront(store, timers, m);
      timers := [rest[m]] + rest[..m] + rest[m + 1..];
    }

    method EarliestOf(rest: seq<nat>) returns (m: nat)
      requires rest != [] && forall t | t in rest :: t < |store|
      ensures m < |rest| && forall t | t in rest :: TimeOf(store, rest[m]) <= TimeOf(store, t)
    {
      m := 0;
      var i := 1;
      while i < |rest|
        invariant m < i <= |rest|
        invariant forall k | 0 <= k < i :: TimeOf(store, rest[m]) <= TimeOf(store, rest[k])
      {
        assert rest[i] in rest && rest[m] in rest;
        if store[rest[i]].triggerTime < store[rest[m]].triggerTime { m := i; }
        i := i + 1;
      }
    }

    /** addTimer, with the clock at `now`. */
    method AddTimer(now: int, delay: int, repeat: Option<int>) returns (t: nat)
      requires Valid() && PositiveRepeat(repeat)
      modifies this`store, this`timers
      ensures Valid() && timers != [] && t == |old(store)| && store == old(store) + [Timer(now + delay, repeat, true)]
      ensures forall x: nat :: x in timers <==> x == t || x in old(timers)
      ensures old(timers) != [] && TimeOf(old(store), old(timers)[0]) <= now + delay ==> timers[0] == old(timers)[0]
    {
      t := |store|;
      store := store + [Timer(now + delay, repeat, true)];
      Emplace(t);
    }

    /** Timer::check: runs the callback of a due, enabled timer; tells whether the timer is to be popped. */
    method Check(t: nat, now: int) returns (done: bool)
      requires Valid() && timers != [] && t == timers[0]
      modifies this`store, this`timers, this`callbacks, this`fired
      ensures Valid() && done == (!old(store)[t].enabled || old(store)[t].triggerTime <= now)
      ensures if done && old(store)[t].enabled then
                && CallbackEffect(old(store), old(timers), now, store, timers) && fired == old(fired) + [t]
                && Performed(NextCallback(old(callbacks)), now, old(store), store)
                && callbacks == old(callbacks)[Min(1, |old(callbacks)|)..]
              else store == old(store) && timers == old(timers) && fired == old(fired) && callbacks == old(callbacks)
    {
      if !store[t].enabled { return true; }
      if now >= store[t].triggerTime {
        RunCallback(now);
        fired := fired + [t];
        return true;
      }
      return false;
    }

    /** What the next callback to run does. */
    static function NextCallback(callbacks: seq<seq<Action>>): seq<Action> { if callbacks == [] then [] else callbacks[0] }

    method RunCallback(now: int)
      requires Valid() && timers != [] && TimeOf(store, timers[0]) <= now
      modifies this`store, this`timers, this`callbacks
      ensures Valid() && CallbackEffect(old(store), old(timers), now, store, timers)
      ensures Performed(NextCallback(old(callbacks)), now, old(store), store)
      ensures callbacks == old(callbacks)[Min(1, |old(callbacks)|)..]
    {
      NothingPerformed(now, store);
      assert callbacks == [] ==> callbacks[0..] == callbacks;
      if callbacks == [] { return; }
      var actions := callbacks[0];
      assert actions in callbacks;
      callbacks := callbacks[1..];
      hide Performed, CallbackEffect;
      EffectOfNothing(store, timers, now);
      var i := 0;
      while i < |actions|
        invariant i <= |actions| && Valid() && CallbackEffect(old(store), old(timers), now, store, timers)
        invariant timers != [] && TimeOf(store, timers[0]) <= now && callbacks == old(callbacks)[1..]
        invariant Performed(actions[..i], now, old(store), store)
      {
        assert actions[..i + 1][..i] == actions[..i];
        ghost var before, queue := store, timers;
        Perform(actions[i], now);
        EffectOfBoth(old(store), old(timers), now, before, queue, store, timers);
        PerformOne(actions[..i + 1], now, old(store), before, store);
        i := i + 1;
      }
      assert actions[..i] == actions;
    }

    /** One action of a callback. */
    method Perform(action: Action, now: int)
      requires Valid() && timers != [] && TimeOf(store, timers[0]) <= now && Positive(action)
      modifies this`store, this`timers
      ensures Valid() && CallbackEffect(old(store), old(timers), now, store, timers)
      ensures timers != [] && TimeOf(store, timers[0]) <= now
      ensures match action
              case Add(delay, repeat) => store == old(store) + [Timer(now + delay, repeat, true)]
              case Drop(t) => store == if t < |old(store)| then old(store)[t := old(store)[t].Disable()] else old(store)
    {
      match action {
        case Add(delay, repeat) =>
          var t := AddTimer(now, delay, repeat);
        case Drop(t) =>
          if t < |store| { store := store[t := store[t].Disable()]; }
      }
    }

    static lemma EffectOfNothing(store: seq<Timer>, queue: seq<nat>, now: int)
      requires queue != [] && forall t | t in queue :: t < |store|
      ensures CallbackEffect(store, queue, now, store, queue)
    {
    }

    static lemma EffectOfBoth(store: seq<Timer>, queue: seq<nat>, now: int, store1: seq<Timer>, queue1: seq<nat>,
                              store2: seq<Timer>, queue2: seq<nat>)
      requires CallbackEffect(store, queue, now, store1, queue1) && CallbackEffect(store1, queue1, now, store2, queue2)
      ensures CallbackEffect(store, queue, now, store2, queue2)
    {
    }

    /** Lines 46-51: pops the front, and queues it again for later if it repeats. */
    method PopOrRequeue(now: int)
      requires Valid() && timers != []
      modifies this`store, this`timers
      ensures Valid() && Requeued(old(store), old(timers), now, store, timers)
      ensures |timers| <= |old(timers)| && (!old(store)[old(timers)[0]].Repeats() ==> |timers| < |old(timers)|)
    {
      var top := timers[0];
      Pop();
      if store[top].Repeats() {
        store := store[top := store[top].Reset(now)];
        Emplace(top);
      }
    }

    /** The clock stands at `now` during the sweep. It stops, and Swept says exactly what it has done. */
    method CheckTimers(now: int)
      requires Valid()
      modifies this
      ensures Valid() && Swept(old(store), old(timers), now, store, timers, fired)
      ensures forall t | t in timers :: TimeOf(store, t) > now
      ensures callbacks == old(callbacks)[Min(|fired|, |old(callbacks)|)..]  // one for each timer fired
    {
      hide Swept, CallbackEffect, Requeued, Performed;
      fired := [];
      SweepStart(store, timers, now);
      while timers != []
        invariant Valid() && Swept(old(store), old(timers), now, store, timers, fired)
        invariant callbacks == old(callbacks)[Min(|fired|, |old(callbacks)|)..]
        decreases |Due(store, timers, now)|, |timers|
      {
        ghost var store1, queue1, fired1 := store, timers, fired;
        var top := timers[0];
        var done := Check(top, now);
        if !done { break; }
        ghost var store2, queue2 := store, timers;
        PopOrRequeue(now);
        if store1[top].enabled {
          SweepFire(old(store), old(timers), now, store1, queue1, fired1, store2, queue2, store, timers);
          FireShrinksDue(store1, queue1, now, store2, queue2, store, timers);
        } else {
          SweepDrop(old(store), old(timers), now, store1, queue1, fired1, store, timers);
          DropKeepsDue(store1, queue1, now, store, timers);
        }
      }
    }
  }
}
