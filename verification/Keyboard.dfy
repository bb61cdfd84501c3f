/** The on-screen keyboard of the terminal (apps/yaft/keyboard.cpp:239-463). */
module Keyboard {
  import opened Options
  import Choice

  const SHIFT := 0x2000000
  const CTRL := 0x4000000
  const ALT := 0x8000000

  predicate IsModifier(scancode: int) { scancode == SHIFT || scancode == CTRL || scancode == ALT }

  /** A key of the layout (apps/yaft/layout.h:6-16); 0 stands for an absent code. */
  datatype KeyInfo = KeyInfo(code: int, altCode: int, longPressCode: int)

  /** Keys are known by their place in the layout, fingers by their slot; NO_SLOT marks a key nobody presses. */
  type Key = nat
  const NO_SLOT := -1

  datatype KeyState = KeyState(slot: int, stuck: bool, held: bool, nextRepeat: int) {
    predicate IsDown() { slot != NO_SLOT || stuck || held }
  }

  const FRESH := KeyState(NO_SLOT, false, false, 0)

  /** What is sent to the terminal. */
  datatype Sent = Sent(scancode: int, shift: bool, alt: bool, ctrl: bool)

  datatype Params = Params(keys: seq<KeyInfo>, repeatDelay: int, repeatTime: int)

  const LONG_PRESS_PAUSE := 5 * 60 * 60 * 1000  // five hours in milliseconds

  predicate IsModifierKey(p: Params, k: Key) { k < |p.keys| && IsModifier(p.keys[k].code) }

  /** updateLayout asserts that no modifier appears twice. */
  ghost predicate UniqueModifiers(p: Params) {
    forall i, j | 0 <= i < j < |p.keys| && IsModifier(p.keys[i].code) :: p.keys[i].code != p.keys[j].code
  }

  /** State of a key; a key without an entry has the default state. */
  function StateOf(state: map<Key, KeyState>, k: Key): KeyState { if k in state then state[k] else FRESH }

  predicate CodeDown(p: Params, state: map<Key, KeyState>, code: int) {
    exists k: Key | k < |p.keys| :: p.keys[k].code == code && StateOf(state, k).IsDown()
  }

  /** The key press sent for key `k`; modifiers send nothing. */
  function Press(p: Params, state: map<Key, KeyState>, k: Key, repeat: bool): seq<Sent> {
    if k >= |p.keys| || IsModifierKey(p, k) then []
    else
      var key := p.keys[k];
      var shift, alt, ctrl := CodeDown(p, state, SHIFT), CodeDown(p, state, ALT), CodeDown(p, state, CTRL);
      var scancode := if repeat && key.longPressCode != 0 then key.longPressCode
                      else if key.altCode != 0 && shift then key.altCode else key.code;
      [Sent(scancode, shift, alt, ctrl)]
  }

  // ----- The effect of each event on every key

  /** A finger goes down on key `k`: its effect on key `j` in state `s`. */
  function DownState(p: Params, s: KeyState, slot: int, k: Key, now: int, j: Key): KeyState {
    if j == k then
      var pressed := s.(slot := slot, nextRepeat := now + p.repeatDelay);
      if !IsModifierKey(p, k) then pressed
      else if s.held then pressed.(held := false)
      else pressed.(stuck := !s.stuck)
    else if IsModifierKey(p, j) && !IsModifierKey(p, k) then s.(nextRepeat := now + p.repeatDelay, stuck := false)
    else s
  }

  /** The finger of a slot goes up: its effect on a key. */
  function UpState(s: KeyState, slot: int): KeyState {
    if s.slot == slot then s.(slot := NO_SLOT) else s
  }

  predicate RepeatDue(s: KeyState, now: int) { s.slot != NO_SLOT && now > s.nextRepeat }

  /** A repeat tick: a modifier pressed for long is held, and every due key is scheduled anew. */
  function RepeatState(p: Params, s: KeyState, now: int, j: Key): KeyState {
    if !RepeatDue(s, now) || j >= |p.keys| then s
    else
      s.(held := s.held || IsModifierKey(p, j),
         nextRepeat := s.nextRepeat + if p.keys[j].longPressCode == 0 then p.repeatTime else LONG_PRESS_PAUSE)
  }

  /** What a repeat tick sends for the due keys, visited in some order. */
  function Repeats(p: Params, state: map<Key, KeyState>, order: seq<Key>): seq<Sent> {
    if order == [] then [] else Repeats(p, state, order[..|order| - 1]) + Press(p, state, order[|order| - 1], true)
  }

  // ----- Invariant

  /** No two keys are pressed by the same finger. */
  ghost predicate OneKeyPerFinger(state: map<Key, KeyState>) {
    forall j, k | j in state && k in state && j != k && state[j].slot != NO_SLOT :: state[j].slot != state[k].slot
  }

  /** `fingers` are the slots of the fingers that are down. */
  ghost predicate KeysOk(p: Params, state: map<Key, KeyState>, fingers: set<int>) {
    && OneKeyPerFinger(state)
    && (forall k | k in state :: k < |p.keys|)
    && (forall k | k in state :: state[k].slot != NO_SLOT ==> state[k].slot in fingers)
    && (forall k | k in state :: state[k].stuck || state[k].held ==> IsModifierKey(p, k))
    // a pressed non-modifier has looked up all modifiers, so later lookups find them
    && (forall k | k in state && state[k].slot != NO_SLOT && !IsModifierKey(p, k) ::
          forall m: Key | IsModifierKey(p, m) :: m in state)
  }

  ghost predicate SameStates(a: map<Key, KeyState>, b: map<Key, KeyState>) {
    forall k: Key :: StateOf(a, k) == StateOf(b, k)
  }

  lemma DownKeepsKeysOk(p: Params, state: map<Key, KeyState>, fingers: set<int>, slot: int, k: Key, now: int,
                        state': map<Key, KeyState>)
    requires KeysOk(p, state, fingers) && slot >= 0 && k < |p.keys|
    requires forall j | j in state && j != k :: state[j].slot != slot
    requires forall j: Key :: StateOf(state', j) == DownState(p, StateOf(state, j), slot, k, now, j)
    requires forall j | j in state' :: j < |p.keys|
    requires state.Keys <= state'.Keys
    requires !IsModifierKey(p, k) ==> forall m: Key | IsModifierKey(p, m) :: m in state'
    ensures KeysOk(p, state', fingers + {slot})
  {
    hide CodeDown;
    forall j | j in state' ensures state'[j] == DownState(p, StateOf(state, j), slot, k, now, j) {
      assert StateOf(state', j) == state'[j];
    }
  }

  lemma UpKeepsKeysOk(p: Params, state: map<Key, KeyState>, fingers: set<int>, slot: int, state': map<Key, KeyState>)
    requires KeysOk(p, state, fingers) && state'.Keys == state.Keys
    requires forall j: Key :: StateOf(state', j) == UpState(StateOf(state, j), slot)
    ensures KeysOk(p, state', fingers - {slot})
  {
    forall j | j in state' ensures state'[j] == UpState(StateOf(state, j), slot) {
      assert StateOf(state', j) == state'[j];
    }
  }

  lemma RepeatKeepsKeysOk(p: Params, state: map<Key, KeyState>, fingers: set<int>, now: int, state': map<Key, KeyState>)
    requires KeysOk(p, state, fingers) && state'.Keys == state.Keys
    requires forall j: Key :: StateOf(state', j) == RepeatState(p, StateOf(state, j), now, j)
    ensures KeysOk(p, state', fingers)
  {
    forall j | j in state' ensures state'[j] == RepeatState(p, StateOf(state, j), now, j) {
      assert StateOf(state', j) == state'[j];
    }
  }

  /** A press keeps fingers and keys matched exactly when its finger does not already hold another key. */
  lemma DoublePress(p: Params, state: map<Key, KeyState>, slot: int, k: Key, now: int, state': map<Key, KeyState>)
    requires OneKeyPerFinger(state) && slot >= 0 && k in state'
    requires forall j: Key :: StateOf(state', j) == DownState(p, StateOf(state, j), slot, k, now, j)
    requires forall j | j in state && state[j].slot != NO_SLOT :: j in state'
    ensures OneKeyPerFinger(state') <==> forall j | j in state && j != k :: state[j].slot != slot
  {
    forall j | j in state' ensures state'[j] == DownState(p, StateOf(state, j), slot, k, now, j) {
      assert StateOf(state', j) == state'[j];
    }
    forall j | j in state && j != k && state[j].slot == slot ensures !OneKeyPerFinger(state') {
      assert state'[j].slot == slot && state'[k].slot == slot;
    }
  }

  // ----- Consequences over several events

  /** `after` follows from `before`: a finger presses `k`, a finger is lifted, a repeat tick passes. */
  ghost predicate Pressed(p: Params, before: map<Key, KeyState>, slot: int, k: Key, now: int, after: map<Key, KeyState>) {
    forall j: Key :: StateOf(after, j) == DownState(p, StateOf(before, j), slot, k, now, j)
  }

  ghost predicate Lifted(before: map<Key, KeyState>, slot: int, after: map<Key, KeyState>) {
    forall j: Key :: StateOf(after, j) == UpState(StateOf(before, j), slot)
  }

  ghost predicate Ticked(p: Params, before: map<Key, KeyState>, now: int, after: map<Key, KeyState>) {
    forall j: Key :: StateOf(after, j) == RepeatState(p, StateOf(before, j), now, j)
  }

  /** A tapped modifier applies to the next ordinary key only. */
  lemma TapIsOneShot(p: Params, s0: map<Key, KeyState>, fingers: set<int>, m: Key, k: Key, a: int, b: int, t: int, u: int,
                     s1: map<Key, KeyState>, s2: map<Key, KeyState>, s3: map<Key, KeyState>)
    requires UniqueModifiers(p) && KeysOk(p, s0, fingers) && IsModifierKey(p, m) && !StateOf(s0, m).IsDown()
    requires k < |p.keys| && !IsModifierKey(p, k) && a >= 0 && b >= 0 && a !in fingers
    requires Pressed(p, s0, a, m, t, s1) && Lifted(s1, a, s2) && Pressed(p, s2, b, k, u, s3)
    ensures CodeDown(p, s2, p.keys[m].code) && !CodeDown(p, s3, p.keys[m].code)
  {
    assert StateOf(s1, m) == DownState(p, StateOf(s0, m), a, m, t, m);
    assert StateOf(s2, m) == UpState(StateOf(s1, m), a);
    assert StateOf(s3, m) == DownState(p, StateOf(s2, m), b, k, u, m);
    assert forall j: Key | j < |p.keys| && p.keys[j].code == p.keys[m].code :: j == m;
  }

  /** A modifier pressed until it repeats is held: it still applies after ordinary keys are typed. */
  lemma LongPressHolds(p: Params, s0: map<Key, KeyState>, m: Key, k: Key, a: int, b: int, t: int, now: int, u: int,
                       s1: map<Key, KeyState>, s2: map<Key, KeyState>, s3: map<Key, KeyState>, s4: map<Key, KeyState>)
    requires IsModifierKey(p, m) && k < |p.keys| && !IsModifierKey(p, k) && a >= 0 && b >= 0
    requires now > t + p.repeatDelay
    requires Pressed(p, s0, a, m, t, s1) && Ticked(p, s1, now, s2) && Lifted(s2, a, s3) && Pressed(p, s3, b, k, u, s4)
    ensures CodeDown(p, s4, p.keys[m].code)
  {
    assert StateOf(s1, m) == DownState(p, StateOf(s0, m), a, m, t, m);
    assert StateOf(s2, m) == RepeatState(p, StateOf(s1, m), now, m);
    assert StateOf(s3, m) == UpState(StateOf(s2, m), a);
    assert StateOf(s4, m) == DownState(p, StateOf(s3, m), b, k, u, m);
  }

  /** A tap of a modifier turns it on or off, unless it is both stuck and held: then it only stops being held. */
  lemma TapToggles(p: Params, s0: map<Key, KeyState>, m: Key, a: int, t: int, s1: map<Key, KeyState>, s2: map<Key, KeyState>)
    requires IsModifierKey(p, m) && a >= 0 && StateOf(s0, m).slot == NO_SLOT
    requires Pressed(p, s0, a, m, t, s1) && Lifted(s1, a, s2)
    ensures !StateOf(s2, m).held && StateOf(s2, m).slot == NO_SLOT
    ensures (StateOf(s2, m).IsDown() <==> !StateOf(s0, m).IsDown()) <==> !(StateOf(s0, m).stuck && StateOf(s0, m).held)
  {
    assert StateOf(s1, m) == DownState(p, StateOf(s0, m), a, m, t, m);
    assert StateOf(s2, m) == UpState(StateOf(s1, m), a);
  }

  /** A modifier that has just been pressed until it is held is both, so the next tap does not turn it off. */
  lemma HeldIsStuck(p: Params, s0: map<Key, KeyState>, m: Key, a: int, b: int, t: int, now: int, u: int,
                    s1: map<Key, KeyState>, s2: map<Key, KeyState>, s3: map<Key, KeyState>, s4: map<Key, KeyState>,
                    s5: map<Key, KeyState>)
    requires IsModifierKey(p, m) && a >= 0 && b >= 0 && !StateOf(s0, m).IsDown() && now > t + p.repeatDelay
    requires Pressed(p, s0, a, m, t, s1) && Ticked(p, s1, now, s2) && Lifted(s2, a, s3)
    requires Pressed(p, s3, b, m, u, s4) && Lifted(s4, b, s5)
    ensures StateOf(s3, m).stuck && StateOf(s3, m).held && CodeDown(p, s5, p.keys[m].code)
  {
    assert StateOf(s1, m) == DownState(p, StateOf(s0, m), a, m, t, m);
    assert StateOf(s2, m) == RepeatState(p, StateOf(s1, m), now, m);
    assert StateOf(s3, m) == UpState(StateOf(s2, m), a);
    TapToggles(p, s3, m, b, u, s4, s5);
  }

  /**
   What is sent: an ordinary key after the tap of a modifier goes out with that modifier alone, with its second code for
   shift; the next one goes out plain, and a repeat with its long-press code if there is one.
   */
  lemma TapSends(p: Params, s0: map<Key, KeyState>, m: Key, k: Key, l: Key, a: int, b: int, t: int, u: int,
                 s1: map<Key, KeyState>, s2: map<Key, KeyState>, s3: map<Key, KeyState>)
    requires UniqueModifiers(p) && IsModifierKey(p, m) && forall j: Key | IsModifierKey(p, j) :: !StateOf(s0, j).IsDown()
    requires k < |p.keys| && l < |p.keys| && !IsModifierKey(p, k) && !IsModifierKey(p, l) && a >= 0 && b >= 0
    requires Pressed(p, s0, a, m, t, s1) && Lifted(s1, a, s2) && Pressed(p, s2, b, k, u, s3)
    ensures var (code, key) := (p.keys[m].code, p.keys[k]);
            Press(p, s2, k, false) == [Sent(if code == SHIFT && key.altCode != 0 then key.altCode else key.code,
                                            code == SHIFT, code == ALT, code == CTRL)]
    ensures Press(p, s3, l, false) == [Sent(p.keys[l].code, false, false, false)]
    ensures Press(p, s3, l, true) == [Sent(if p.keys[l].longPressCode != 0 then p.keys[l].longPressCode else p.keys[l].code,
                                           false, false, false)]
  {
    forall j: Key | IsModifierKey(p, j)
      ensures (StateOf(s2, j).IsDown() <==> j == m) && !StateOf(s3, j).IsDown()
    {
      assert StateOf(s1, j) == DownState(p, StateOf(s0, j), a, m, t, j);
      assert StateOf(s2, j) == UpState(StateOf(s1, j), a);
      assert StateOf(s3, j) == DownState(p, StateOf(s2, j), b, k, u, j);
    }
    hide StateOf;
    forall code | IsModifier(code) ensures (CodeDown(p, s2, code) <==> code == p.keys[m].code) && !CodeDown(p, s3, code) {
      assert forall j: Key | j < |p.keys| && p.keys[j].code == code :: IsModifierKey(p, j);
      assert forall j: Key | j < |p.keys| && p.keys[j].code == p.keys[m].code :: j == m;
    }
  }

  // ----- Runs

  /** A finger comes down, on a key or beside them; a finger is lifted; the repeat timer fires. */
  datatype Event = FingerDown(slot: int, key: Option<Key>, now: int) | FingerUp(slot: int) | RepeatTimer(now: int)

  /** The fingers that are down after an event. */
  function FingersNext(fingers: set<int>, e: Event): set<int> {
    match e
    case FingerDown(slot, _, _) => fingers + {slot}
    case FingerUp(slot) => fingers - {slot}
    case RepeatTimer(_) => fingers
  }

  /** Each finger alternates between coming down and being lifted. */
  predicate Alternates(p: Params, events: seq<Event>, fingers: set<int>)
    decreases |events|
  {
    events != [] ==>
      && (match events[0]
          case FingerDown(slot, key, _) => slot >= 0 && slot !in fingers && (key.Some? ==> key.value < |p.keys|)
          case FingerUp(slot) => slot >= 0 && slot in fingers
          case RepeatTimer(_) => true)
      && Alternates(p, events[1..], FingersNext(fingers, events[0]))
  }

  function FingersAfter(fingers: set<int>, events: seq<Event>): set<int>
    decreases |events|
  {
    if events == [] then fingers else FingersAfter(FingersNext(fingers, events[0]), events[1..])
  }

  /** The effect of one event on key `j` in state `s`, and that of a run. */
  function KeyNext(p: Params, s: KeyState, e: Event, j: Key): KeyState {
    match e
    case FingerDown(slot, key, now) => if key.Some? then DownState(p, s, slot, key.value, now, j) else s
    case FingerUp(slot) => UpState(s, slot)
    case RepeatTimer(now) => RepeatState(p, s, now, j)
  }

  function KeyAfter(p: Params, s: KeyState, events: seq<Event>, j: Key): KeyState
    decreases |events|
  {
    if events == [] then s else KeyAfter(p, KeyNext(p, s, events[0], j), events[1..], j)
  }

  predicate Presses(e: Event, k: Key) { e.FingerDown? && e.key == Some(k) }

  predicate PressesOrdinary(p: Params, e: Event) { e.FingerDown? && e.key.Some? && !IsModifierKey(p, e.key.value) }

  /**
   Over every run in which a modifier is not pressed again, it stays stuck exactly until the first press of an ordinary
   key, and once held it stays held. An ordinary key is never stuck.
   */
  lemma {:induction false} PressClearsStuck(p: Params, s: KeyState, events: seq<Event>, j: Key)
    requires if IsModifierKey(p, j) then forall e | e in events :: !Presses(e, j) else !s.stuck
    ensures KeyAfter(p, s, events, j).stuck <==> s.stuck && forall e | e in events :: !PressesOrdinary(p, e)
    ensures s.held ==> KeyAfter(p, s, events, j).held
    ensures (forall e | e in events :: !e.RepeatTimer?) ==> KeyAfter(p, s, events, j).held == s.held
    decreases |events|
  {
    if events != [] {
      var next := KeyNext(p, s, events[0], j);
      assert events[0] in events && forall e :: e in events <==> e == events[0] || e in events[1..];
      assert next.stuck <==> s.stuck && !PressesOrdinary(p, events[0]);
      PressClearsStuck(p, next, events[1..], j);
    }
  }

  /** So a modifier that is tapped applies, over any run of other keys' events, until the next ordinary press is over. */
  lemma TapLasts(p: Params, s: KeyState, m: Key, slot: int, now: int, events: seq<Event>)
    requires IsModifierKey(p, m) && !s.stuck && !s.held && forall e | e in events :: !Presses(e, m)
    ensures var tapped := KeyNext(p, s, FingerDown(slot, Some(m), now), m);
            KeyAfter(p, tapped, events, m).stuck <==> forall e | e in events :: !PressesOrdinary(p, e)
  {
    PressClearsStuck(p, KeyNext(p, s, FingerDown(slot, Some(m), now), m), events, m);
  }

  // ----- Times

  /** How many ticks find a key due that is due after `next`, and again `period` later each time. */
  function DueTicks(next: int, period: int, ticks: seq<int>): nat
    decreases |ticks|
  {
    if ticks == [] then 0
    else if ticks[0] > next then 1 + DueTicks(next + period, period, ticks[1..])
    else DueTicks(next, period, ticks[1..])
  }

  function Ticks(ticks: seq<int>): (events: seq<Event>) { seq(|ticks|, i requires 0 <= i < |ticks| => RepeatTimer(ticks[i])) }

  /** Milliseconds between two repeats of a key. */
  function Period(p: Params, j: Key): int
    requires j < |p.keys|
  {
    if p.keys[j].longPressCode == 0 then p.repeatTime else 5 * 60 * 60 * 1000
  }

  /**
   A key pressed at `t` and not let go repeats at the first tick after the delay, and then once in every period; only
   the first of these makes a modifier held.
   */
  lemma RepeatTimes(p: Params, s: KeyState, slot: int, j: Key, t: int, ticks: seq<int>)
    requires slot >= 0 && j < |p.keys|
    ensures var pressed := KeyNext(p, s, FingerDown(slot, Some(j), t), j);
            var (after, n) := (KeyAfter(p, pressed, Ticks(ticks), j), DueTicks(t + p.repeatDelay, Period(p, j), ticks));
            && after.slot == slot && after.stuck == pressed.stuck
            && after.held == (pressed.held || (IsModifierKey(p, j) && n > 0))
            && forall now: int :: RepeatDue(after, now) <==> now > t + p.repeatDelay + Period(p, j) * n
  {
    TicksPass(p, KeyNext(p, s, FingerDown(slot, Some(j), t), j), j, ticks);
  }

  lemma {:induction false} TicksPass(p: Params, s: KeyState, j: Key, ticks: seq<int>)
    requires s.slot != NO_SLOT && j < |p.keys|
    ensures var n := DueTicks(s.nextRepeat, Period(p, j), ticks);
            KeyAfter(p, s, Ticks(ticks), j)
            == s.(held := s.held || (IsModifierKey(p, j) && n > 0), nextRepeat := s.nextRepeat + Period(p, j) * n)
    decreases |ticks|
  {
    if ticks != [] {
      assert Ticks(ticks)[1..] == Ticks(ticks[1..]);
      var next := RepeatState(p, s, ticks[0], j);
      TicksPass(p, next, j, ticks[1..]);
      OneMore(Period(p, j), DueTicks(next.nextRepeat, Period(p, j), ticks[1..]));
      hide Period;
    }
  }

  lemma OneMore(period: int, n: nat)
    ensures period * (1 + n) == period + period * n
  {
  }

  /** Ordinary keys are pressed so often that every tick comes within the delay after a press; the last was at `last`. */
  predicate Typing(p: Params, events: seq<Event>, last: int)
    decreases |events|
  {
    events != [] ==>
      match events[0]
      case RepeatTimer(now) => now <= last + p.repeatDelay && Typing(p, events[1..], last)
      case FingerDown(_, key, now) => PressesOrdinary(p, events[0]) && Typing(p, events[1..], now)
      case FingerUp(_) => Typing(p, events[1..], last)
  }

  /** A modifier under a finger is not taken for held while other keys are typed. */
  lemma {:induction false} TypingPostponesHold(p: Params, s: KeyState, events: seq<Event>, m: Key, last: int)
    requires IsModifierKey(p, m) && s.nextRepeat == last + p.repeatDelay && Typing(p, events, last)
    ensures KeyAfter(p, s, events, m).held == s.held
    decreases |events|
  {
    if events != [] {
      var next := KeyNext(p, s, events[0], m);
      TypingPostponesHold(p, next, events[1..], m, next.nextRepeat - p.repeatDelay);
    }
  }

  // ----- The render object

  class KeyboardRenderObject {
    const params: Params
    var keyState: map<Key, KeyState>
    const shiftKey: Option<Key>
    const ctrlKey: Option<Key>
    const altKey: Option<Key>
    var sent: seq<Sent>              // everything written to the terminal
    ghost var fingers: set<int>      // slots of the fingers on the screen

    ghost predicate IsTheKey(key: Option<Key>, code: int) {
      match key
      case Some(k) => k < |params.keys| && params.keys[k].code == code
      case None => forall k: Key | k < |params.keys| :: params.keys[k].code != code
    }

    /** The modifier keys were looked up correctly. */
    ghost predicate ModifiersFound() {
      && UniqueModifiers(params)
      && IsTheKey(shiftKey, SHIFT) && IsTheKey(ctrlKey, CTRL) && IsTheKey(altKey, ALT)
    }

    ghost predicate Valid()
      reads this
    {
      ModifiersFound() && KeysOk(params, keyState, fingers)
    }

    /** updateLayout: finds the modifier keys. */
    constructor (params: Params)
      requires UniqueModifiers(params)
      ensures Valid() && keyState == map[] && sent == [] && fingers == {} && this.params == params
    {
      this.params := params;
      var shift: Option<Key>, ctrl: Option<Key>, alt: Option<Key> := None, None, None;
      var i := 0;
      while i < |params.keys|
        invariant i <= |params.keys|
        invariant FoundUpTo(params, i, shift, SHIFT) && FoundUpTo(params, i, ctrl, CTRL) && FoundUpTo(params, i, alt, ALT)
      {
        if params.keys[i].code == ALT { alt := Some(i); }
        else if params.keys[i].code == CTRL { ctrl := Some(i); }
        else if params.keys[i].code == SHIFT { shift := Some(i); }
        i := i + 1;
      }
      shiftKey, ctrlKey, altKey := shift, ctrl, alt;
      keyState, sent, fingers := map[], [], {};
    }

    static ghost predicate FoundUpTo(params: Params, i: nat, key: Option<Key>, code: int)
      requires i <= |params.keys|
    {
      match key
      case Some(k) => k < i && params.keys[k].code == code
      case None => forall k: Key | k < i :: params.keys[k].code != code
    }

    /** keyState[key].isDown() for a modifier that may be missing; looking up a key creates its entry. */
    method LookUp(key: Option<Key>, code: int) returns (down: bool)
      requires UniqueModifiers(params) && IsTheKey(key, code) && IsModifier(code)
      modifies this`keyState
      ensures down == CodeDown(params, old(keyState), code) == CodeDown(params, keyState, code)
      ensures SameStates(keyState, old(keyState))
      ensures keyState.Keys == old(keyState).Keys + if key.Some? then {key.value} else {}
    {
      if key == None { return false; }
      if key.value !in keyState { keyState := keyState[key.value := FRESH]; }
      down := keyState[key.value].IsDown();
      assert forall k: Key | k < |params.keys| && params.keys[k].code == code :: k == key.value;
    }

    static lemma SameDown(p: Params, a: map<Key, KeyState>, b: map<Key, KeyState>, code: int)
      requires SameStates(a, b)
      ensures CodeDown(p, a, code) == CodeDown(p, b, code)
    {
      assert forall k: Key :: StateOf(a, k) == StateOf(b, k);
    }

    /** Looks up all modifiers, which creates entries for those without one. */
    method LookUpAll() returns (shift: bool, alt: bool, ctrl: bool)
      requires ModifiersFound()
      modifies this`keyState
      ensures shift == CodeDown(params, old(keyState), SHIFT) && alt == CodeDown(params, old(keyState), ALT)
      ensures ctrl == CodeDown(params, old(keyState), CTRL) && SameStates(keyState, old(keyState))
      ensures forall j: Key :: j in keyState <==> j in old(keyState) || IsModifierKey(params, j)
    {
      hide CodeDown, StateOf;
      ghost var before := keyState;
      shift := LookUp(shiftKey, SHIFT);
      SameDown(params, keyState, before, ALT);
      alt := LookUp(altKey, ALT);
      SameDown(params, keyState, before, CTRL);
      ctrl := LookUp(ctrlKey, CTRL);
      AllModifiers();
    }

    lemma AllModifiers()
      requires ModifiersFound()
      ensures forall j: Key :: IsModifierKey(params, j) <==> shiftKey == Some(j) || altKey == Some(j) || ctrlKey == Some(j)
    {
    }

    /** sendKeyDown: changes no key's state, though it may create entries for the modifiers. */
    method SendKeyDown(k: Key, repeat: bool)
      requires ModifiersFound() && k < |params.keys|
      modifies this`keyState, this`sent
      ensures sent == old(sent) + Press(params, old(keyState), k, repeat)
      ensures SameStates(keyState, old(keyState)) && old(keyState).Keys <= keyState.Keys
      ensures forall j | j in keyState :: j in old(keyState) || IsModifierKey(params, j)
      ensures if IsModifierKey(params, k) then keyState == old(keyState)
              else forall m: Key | IsModifierKey(params, m) :: m in keyState
    {
      var key := params.keys[k];
      if IsModifier(key.code) {
        assert sent + [] == sent;
        return;
      }
      hide CodeDown, StateOf, SameStates, ModifiersFound;
      var shift, alt, ctrl := LookUpAll();
      var scancode := if key.altCode != 0 && shift then key.altCode else key.code;
      if repeat && key.longPressCode != 0 { scancode := key.longPressCode; }
      sent := sent + [Sent(scancode, shift, alt, ctrl)];
    }

    /** clearSticky on a key. */
    function Unstuck(s: KeyState, now: int): KeyState { s.(nextRepeat := now + params.repeatDelay, stuck := false) }

    method ClearOne(key: Option<Key>, now: int)
      modifies this`keyState
      ensures forall j: Key :: StateOf(keyState, j) ==
                if key == Some(j) then Unstuck(StateOf(old(keyState), j), now) else StateOf(old(keyState), j)
      ensures keyState.Keys == old(keyState).Keys + if key.Some? then {key.value} else {}
    {
      if key.Some? {
        keyState := keyState[key.value := StateOf(keyState, key.value)];
        var state := keyState[key.value];
        state := state.(nextRepeat := now + params.repeatDelay);
        if state.stuck { state := state.(stuck := false); }
        keyState := keyState[key.value := state];
      }
    }

    method ClearSticky(now: int)
      requires ModifiersFound()
      modifies this`keyState
      ensures forall j: Key :: StateOf(keyState, j) ==
                if IsModifierKey(params, j) then Unstuck(StateOf(old(keyState), j), now) else StateOf(old(keyState), j)
      ensures forall j | j in keyState :: j in old(keyState) || IsModifierKey(params, j)
      ensures old(keyState).Keys <= keyState.Keys
    {
      AllModifiers();
      ClearOne(shiftKey, now);
      ClearOne(altKey, now);
      ClearOne(ctrlKey, now);
    }

    /**
     A finger goes down; `key` is the key under it, if any. Its press uses the modifiers as they were before. Keys and
     fingers stay matched iff no other key is owned by that finger.
     */
    method TouchDown(slot: int, key: Option<Key>, now: int)
      requires ModifiersFound() && slot >= 0 && (key.Some? ==> key.value < |params.keys|)
      modifies this
      ensures fingers == old(fingers) + {slot}
      ensures key.None? ==> keyState == old(keyState) && sent == old(sent)
      ensures key.Some? ==> sent == old(sent) + Press(params, old(keyState), key.value, false)
      ensures key.Some? ==> forall j: Key ::
                StateOf(keyState, j) == DownState(params, StateOf(old(keyState), j), slot, key.value, now, j)
      ensures old(Valid()) ==>
                (Valid() <==> (key.Some? ==> forall j | j in old(keyState) && j != key.value :: old(keyState)[j].slot != slot))
      ensures old(Valid()) && slot !in old(fingers) ==> Valid()
    {
      fingers := fingers + {slot};
      if key.None? { return; }
      var k := key.value;
      ghost var before := keyState;
      SendKeyDown(k, false);
      var state := StateOf(keyState, k).(slot := slot, nextRepeat := now + params.repeatDelay);
      if IsModifier(params.keys[k].code) {
        if !state.held { state := state.(stuck := !state.stuck); }
        state := state.(held := false);
        keyState := keyState[k := state];
      } else {
        keyState := keyState[k := state];
        ClearSticky(now);
      }
      PressMatches(before, old(fingers), slot, k, now, keyState);
    }

    lemma PressMatches(before: map<Key, KeyState>, was: set<int>, slot: int, k: Key, now: int, after: map<Key, KeyState>)
      requires slot >= 0 && k < |params.keys| && fingers == was + {slot}
      requires forall j: Key :: StateOf(after, j) == DownState(params, StateOf(before, j), slot, k, now, j)
      requires before.Keys <= after.Keys && k in after && forall j | j in after :: j in before || j == k || IsModifierKey(params, j)
      requires !IsModifierKey(params, k) ==> forall m: Key | IsModifierKey(params, m) :: m in after
      ensures KeysOk(params, before, was) ==>
                (KeysOk(params, after, fingers) <==> forall j | j in before && j != k :: before[j].slot != slot)
    {
      if KeysOk(params, before, was) {
        DoublePress(params, before, slot, k, now, after);
        if forall j | j in before && j != k :: before[j].slot != slot {
          DownKeepsKeysOk(params, before, was, slot, k, now, after);
        }
      }
    }

    /** A finger goes up: a key that it owns, if there is one, is released. In matched states that is the only one. */
    method TouchUp(slot: int)
      requires slot >= 0
      modifies this
      ensures fingers == old(fingers) - {slot} && sent == old(sent)
      ensures if forall k | k in old(keyState) :: old(keyState)[k].slot != slot then keyState == old(keyState)
              else exists k | k in old(keyState) && old(keyState)[k].slot == slot ::
                     keyState == old(keyState)[k := old(keyState)[k].(slot := NO_SLOT)]
      ensures old(Valid()) ==> Valid() && forall j: Key :: StateOf(keyState, j) == UpState(StateOf(old(keyState), j), slot)
    {
      ghost var before := keyState;
      var owners := set k | k in keyState && keyState[k].slot == slot;
      assert forall k | k in before :: before[k].slot == slot ==> k in owners;
      fingers := fingers - {slot};
      if owners != {} {
        var k := Choice.AnyOf(owners);
        keyState := keyState[k := keyState[k].(slot := NO_SLOT)];
        assert keyState.Keys == before.Keys;
      }
      if old(Valid()) { UpKeepsKeysOk(params, before, old(fingers), slot, keyState); }
    }

    /** Every key that is due repeats once, in the unspecified order of the map, which never gains an entry meanwhile. */
    method UpdateRepeat(now: int) returns (ghost order: seq<Key>)
      requires Valid()
      modifies this`keyState, this`sent
      ensures Valid() && keyState.Keys == old(keyState).Keys
      ensures forall j: Key :: StateOf(keyState, j) == RepeatState(params, StateOf(old(keyState), j), now, j)
      ensures Distinct(order) && forall k: Key :: k in order <==> RepeatDue(StateOf(old(keyState), k), now)
      ensures sent == old(sent) + Repeats(params, old(keyState), order)
      ensures fingers == {} ==> sent == old(sent) && keyState == old(keyState)
    {
      hide KeysOk, TickedSoFar, Press;
      ghost var before := keyState;
      order := [];
      NoneTicked(before, now);
      var todo := keyState.Keys;
      while todo != {}
        invariant todo <= before.Keys && TickedSoFar(before, keyState, now, before.Keys - todo, order)
        invariant sent == old(sent) + Repeats(params, before, order)
        decreases todo
      {
        var k := Choice.AnyOf(todo);
        ghost var done := before.Keys - todo;
        Tick(before, now, done, order, k);
        todo := todo - {k};
        if RepeatDue(StateOf(before, k), now) { RepeatsSnoc(before, order, k); }
        order := if RepeatDue(StateOf(before, k), now) then order + [k] else order;
        assert before.Keys - todo == done + {k};
      }
      assert before.Keys - todo == before.Keys;
      AllTicked(before, keyState, now, order);
      RepeatKeepsKeysOk(params, before, fingers, now, keyState);
      if fingers == {} { NoFingers(before, keyState, now, order); }
    }

    /** Over every run of alternating fingers keys and fingers stay matched, and only modifiers are stuck or held. */
    method Run(events: seq<Event>)
      requires Valid() && Alternates(params, events, fingers)
      modifies this
      ensures Valid() && fingers == FingersAfter(old(fingers), events)
      ensures fingers == {} ==> forall k | k in keyState :: keyState[k].slot == NO_SLOT
      ensures forall j: Key :: StateOf(keyState, j) == KeyAfter(params, StateOf(old(keyState), j), events, j)
    {
      hide KeysOk, DownState, UpState, RepeatState;
      var i := 0;
      while i < |events|
        invariant i <= |events| && Valid() && Alternates(params, events[i..], fingers)
        invariant FingersAfter(fingers, events[i..]) == FingersAfter(old(fingers), events)
        invariant forall j: Key :: KeyAfter(params, StateOf(keyState, j), events[i..], j)
                                == KeyAfter(params, StateOf(old(keyState), j), events, j)
      {
        assert events[i..][1..] == events[i + 1..];
        match events[i] {
          case FingerDown(slot, key, now) => TouchDown(slot, key, now);
          case FingerUp(slot) => TouchUp(slot);
          case RepeatTimer(now) => ghost var order := UpdateRepeat(now);
        }
        i := i + 1;
      }
      if fingers == {} { NoneOwned(); }
    }

    /** A finger that comes down on a second key without having been lifted owns both. */
    static method OneFingerTwoKeys() returns (keyboard: KeyboardRenderObject)
      ensures 0 in keyboard.keyState && 1 in keyboard.keyState && !keyboard.Valid()
      ensures keyboard.keyState[0].slot == keyboard.keyState[1].slot == 7
    {
      hide KeyboardRenderObject.Valid;
      keyboard := new KeyboardRenderObject(Params([KeyInfo(97, 0, 0), KeyInfo(98, 0, 0)], 500, 50));
      IsFound(keyboard);
      hide Press;
      keyboard.TouchDown(7, Some(0), 0);
      assert StateOf(keyboard.keyState, 0).slot == 7;
      IsFound(keyboard);
      keyboard.TouchDown(7, Some(1), 1);
      assert StateOf(keyboard.keyState, 0).slot == 7 && StateOf(keyboard.keyState, 1).slot == 7;
    }

    static lemma IsFound(keyboard: KeyboardRenderObject)
      requires keyboard.Valid()
      ensures keyboard.ModifiersFound()
    {
    }

    lemma NoneOwned()
      requires Valid() && fingers == {}
      ensures forall k | k in keyState :: keyState[k].slot == NO_SLOT
    {
    }

    lemma RepeatsSnoc(state: map<Key, KeyState>, order: seq<Key>, k: Key)
      ensures Repeats(params, state, order + [k]) == Repeats(params, state, order) + Press(params, state, k, true)
    {
      assert (order + [k])[..|order|] == order;
    }

    lemma NoneTicked(before: map<Key, KeyState>, now: int)
      ensures TickedSoFar(before, before, now, before.Keys - before.Keys, [])
    {
    }

    lemma AllTicked(before: map<Key, KeyState>, state: map<Key, KeyState>, now: int, order: seq<Key>)
      requires TickedSoFar(before, state, now, before.Keys, order)
      ensures state.Keys == before.Keys && Distinct(order)
      ensures forall j: Key :: StateOf(state, j) == RepeatState(params, StateOf(before, j), now, j)
      ensures forall k: Key :: k in order <==> RepeatDue(StateOf(before, k), now)
    {
    }

    lemma NoFingers(before: map<Key, KeyState>, state: map<Key, KeyState>, now: int, order: seq<Key>)
      requires KeysOk(params, before, {}) && TickedSoFar(before, state, now, before.Keys, order)
      ensures order == [] && state == before
    {
      forall k | k in before ensures before[k].slot == NO_SLOT {}
      HasMember(order);
    }

    static lemma HasMember(order: seq<Key>)
      ensures order != [] ==> exists k :: k in order
    {
      if order != [] { assert order[0] in order; }
    }

    /** The body of the loop for one key. */
    method Tick(ghost before: map<Key, KeyState>, now: int, ghost done: set<Key>, ghost order: seq<Key>, k: Key)
      requires ModifiersFound() && KeysOk(params, before, fingers)
      requires TickedSoFar(before, keyState, now, done, order) && k in before && k !in done
      modifies this`keyState, this`sent
      ensures TickedSoFar(before, keyState, now, done + {k}, if RepeatDue(StateOf(before, k), now) then order + [k] else order)
      ensures sent == old(sent) + if RepeatDue(StateOf(before, k), now) then Press(params, before, k, true) else []
    {
      AtTick(before, keyState, now, done, order, k);
      hide Press, TickedSoFar, KeysOk, SameStates, ModifiersFound, StateOf;
      ghost var start := keyState;
      var state := keyState[k];
      if state.slot != NO_SLOT && now > state.nextRepeat {
        if IsModifier(params.keys[k].code) && !state.held {
          state := state.(held := true);
          ModifierIsSilent(before, k);
        } else {
          SendKeyDown(k, true);
          SamePress(before, start, now, done, order, k);
          NothingInserted(before, start, keyState, now, done, order, k);
        }
        state := state.(nextRepeat := state.nextRepeat +
                          if params.keys[k].longPressCode == 0 then params.repeatTime else LONG_PRESS_PAUSE);
        keyState := keyState[k := state];
      }
      TickOne(before, start, now, done, order, k);
    }

    lemma AtTick(before: map<Key, KeyState>, state: map<Key, KeyState>, now: int, done: set<Key>, order: seq<Key>, k: Key)
      requires KeysOk(params, before, fingers) && TickedSoFar(before, state, now, done, order) && k in before && k !in done
      ensures k in state && state[k] == before[k] == StateOf(before, k) && k < |params.keys|
    {
    }

    lemma ModifierIsSilent(state: map<Key, KeyState>, k: Key)
      requires IsModifierKey(params, k)
      ensures Press(params, state, k, true) == []
    {
    }

    /** Looking up the modifiers while iterating finds all of them, so it leaves the map exactly as it was. */
    lemma NothingInserted(before: map<Key, KeyState>, start: map<Key, KeyState>, state: map<Key, KeyState>, now: int,
                          done: set<Key>, order: seq<Key>, k: Key)
      requires KeysOk(params, before, fingers) && TickedSoFar(before, start, now, done, order)
      requires k in before && k !in done && RepeatDue(StateOf(before, k), now)
      requires SameStates(state, start) && start.Keys <= state.Keys
      requires forall j | j in state :: j in start || IsModifierKey(params, j)
      requires IsModifierKey(params, k) ==> state == start
      ensures state == start
    {
      if !IsModifierKey(params, k) {
        assert state.Keys == start.Keys;
        forall j | j in state ensures state[j] == start[j] {
          assert StateOf(state, j) == StateOf(start, j);
        }
      }
    }

    lemma TickOne(before: map<Key, KeyState>, start: map<Key, KeyState>, now: int, done: set<Key>, order: seq<Key>, k: Key)
      requires TickedSoFar(before, start, now, done, order) && k in before && k !in done
      ensures TickedSoFar(before, start[k := RepeatState(params, StateOf(before, k), now, k)], now, done + {k},
                     if RepeatDue(StateOf(before, k), now) then order + [k] else order)
      ensures !RepeatDue(StateOf(before, k), now) ==> start[k := RepeatState(params, StateOf(before, k), now, k)] == start
    {
    }

    /** The ticks done so far do not change which modifiers count as down. */
    lemma SamePress(before: map<Key, KeyState>, state: map<Key, KeyState>, now: int, done: set<Key>, order: seq<Key>, k: Key)
      requires TickedSoFar(before, state, now, done, order)
      ensures Press(params, state, k, true) == Press(params, before, k, true)
    {
      assert forall j: Key :: StateOf(state, j).IsDown() == StateOf(before, j).IsDown();
    }

    static ghost predicate Distinct(s: seq<Key>) { forall i, j | 0 <= i < j < |s| :: s[i] != s[j] }

    /** The keys in `done` have had their tick, those of them that were due are in `order`. */
    ghost predicate TickedSoFar(before: map<Key, KeyState>, state: map<Key, KeyState>, now: int, done: set<Key>, order: seq<Key>) {
      && state.Keys == before.Keys
      && Distinct(order) && (forall k: Key :: k in order <==> k in done && RepeatDue(StateOf(before, k), now))
      && forall k | k in before :: state[k] == if k in done then RepeatState(params, StateOf(before, k), now, k) else before[k]
    }
  }
}