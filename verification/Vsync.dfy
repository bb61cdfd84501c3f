/**
 The vsync thread as a step machine (libs/swtcon/Vsync.cpp:55-208, with pan, blank and unblank of libs/swtcon/fb.cpp:72-133).

 Steps of the other threads can fall between any two steps of the thread: between its tests of the shared counters and
 flags, its calls to the display, its counter updates and its clearing of buffers. The generator thread only ever
 raises `last`; other threads only set the two request flags. The thread ignores whether its calls to the display
 succeed, so any of them may fail.
 */
module Vsync {
  import opened Options
  import opened PanBuffers

  /** Where the thread is; the line numbers are those of Vsync.cpp. */
  datatype Pc =
    | Drain                       // 59: while there are phases to pan
    | Panned                      // 63: the current phase is consumed, the counters are not yet updated
    | ClearOld(prevPhase: int)    // 69: the counters are updated, the phase before is not yet cleared
    | Idle                        // 77: nothing left, move to the empty phase
    | Settle                      // 81: clear the last phase
    | Lock                        // 97-113: without a blank delay the display is blanked at once
    | Wait                        // 116-145: wait for work, blanking the display after a while
    | Wake                        // 149: unblank if there is something to show
    | Park                        // 158: move to the empty phase
    | Clear                       // 163: run the init waveform if asked to
    | Exit                        // 203: stop if asked to
    | Stopped

  /** The program's flag, whether the panel is on, and what its offset register holds. */
  datatype Display = Display(blanked: bool, lit: bool, slot: int)

  /**
   The histories are the phases passed to the display by pan or unblank, those of them that came up on the lit panel,
   and the phases cleared, each in order.
   */
  datatype State = State(
    pc: Pc,
    current: int, last: int, previous: int, clearCount: int,
    display: Display,
    clearRequest: bool, shutdownRequest: bool,
    consumed: seq<int>, displayed: seq<int>, cleared: seq<int>)

  const EMPTY_PHASE := 0x10

  /**
   What decides a step of the thread besides the state: whether it decides to blank, whether the calls pan, unblank and
   blank succeed, whether an init waveform can be run, and the slot that run leaves if its last pan fails.
   */
  datatype Calls = Calls(blank: bool, pans: bool, unblanks: bool, blanks: bool, canClear: bool, initSlot: int)

  datatype Event =
    | Raise(phases: nat)     // the generator has produced phases
    | RequestClear
    | RequestShutdown
    | Thread(calls: Calls)   // the vsync thread moves

  function Next(s: State, e: Event): State {
    match e
    case Raise(phases) => s.(last := s.last + phases)
    case RequestClear => s.(clearRequest := true)
    case RequestShutdown => s.(shutdownRequest := true)
    case Thread(calls) => ThreadStep(s, calls)
  }

  /** fb::blank sets the flag even if the panel stays on. */
  function Blank(d: Display, blanks: bool): Display { Display(true, d.lit && !blanks, d.slot) }

  /** fb::pan. */
  function Pan(d: Display, slot: int, pans: bool): Display { if pans then d.(slot := slot) else d }

  /** fb::unblank, of a blanked display. */
  function Unblank(d: Display, slot: int, unblanks: bool): Display { if unblanks then Display(false, true, slot) else d }

  /** After an init waveform, which ends with a pan to the empty phase and, unless unblanking failed, a blank. */
  function InitRun(d: Display, calls: Calls): Display {
    var panned := d.(slot := if calls.pans then EMPTY_PHASE else calls.initSlot);
    if d.blanked && !calls.unblanks then panned else Blank(panned.(lit := d.blanked || d.lit), calls.blanks)
  }

  function ThreadStep(s: State, calls: Calls): State {
    match s.pc
    case Drain =>
      if s.current == s.last then s.(pc := Idle)
      else
        s.(pc := Panned, display := Pan(s.display, NormPhase(s.current), calls.pans), consumed := s.consumed + [s.current],
           displayed := if calls.pans && s.display.lit then s.displayed + [s.current] else s.displayed)
    case Panned =>
      s.(pc := ClearOld(s.previous), previous := s.current, current := s.current + 1)
    case ClearOld(prevPhase) =>
      if prevPhase >= 0 then s.(pc := Drain, clearCount := s.clearCount + 1, cleared := s.cleared + [prevPhase])
      else s.(pc := Drain)
    case Idle =>
      s.(pc := Settle, display := if s.display.blanked then s.display else Pan(s.display, EMPTY_PHASE, calls.pans))
    case Settle =>
      if s.previous >= 0 then
        s.(pc := Lock, clearCount := s.clearCount + 1, cleared := s.cleared + [s.previous], previous := -1)
      else s.(pc := Lock)
    case Lock =>
      s.(pc := Wait, display := if calls.blank && !s.display.blanked then Blank(s.display, calls.blanks) else s.display)
    case Wait =>
      if s.current != s.last || s.shutdownRequest || s.clearRequest then s.(pc := Wake)
      else if calls.blank && !s.display.blanked then s.(display := Blank(s.display, calls.blanks))
      else s
    case Wake =>
      if s.display.blanked && !s.shutdownRequest && !s.clearRequest then
        s.(pc := Park, display := Unblank(s.display, NormPhase(s.current), calls.unblanks),
           previous := s.current, current := s.current + 1, consumed := s.consumed + [s.current],
           displayed := if calls.unblanks then s.displayed + [s.current] else s.displayed)
      else s.(pc := Park)
    case Park =>
      s.(pc := Clear, display := if s.display.blanked then s.display else Pan(s.display, EMPTY_PHASE, calls.pans))
    case Clear =>
      if !s.clearRequest then s.(pc := Exit)
      else
        s.(pc := Exit, clearRequest := false, display := if calls.canClear then InitRun(s.display, calls) else s.display)
    case Exit =>
      s.(pc := if s.shutdownRequest then Stopped else Drain)
    case Stopped => s
  }

  /** The state after a schedule. */
  function Run(s: State, schedule: seq<Event>): State
    decreases |schedule|
  {
    if schedule == [] then s else Run(Next(s, schedule[0]), schedule[1..])
  }

  lemma {:induction false} RunConcat(s: State, a: seq<Event>, b: seq<Event>)
    ensures Run(s, a + b) == Run(Run(s, a), b)
    decreases |a|
  {
    if a == [] {
      assert a + b == b;
    } else {
      assert (a + b)[1..] == a[1..] + b;
      RunConcat(Next(s, a[0]), a[1..], b);
    }
  }

  // ----- Invariant

  /** The phases from `lo` up to but not including `hi`. */
  function Range(lo: int, hi: int): seq<int>
    requires lo <= hi
  {
    seq(hi - lo, i requires 0 <= i < hi - lo => lo + i)
  }

  /** Number of phases consumed whose buffer is still to be cleared, by the counters and by the step in progress. */
  function Uncleared(s: State): int {
    (if s.previous >= 0 then 1 else 0) + (if s.pc.ClearOld? && s.pc.prevPhase >= 0 then 1 else 0)
  }

  /** The first phase not yet cleared, and the first not yet consumed. */
  function ClearedTo(s: State): int { s.current - Uncleared(s) }

  function ConsumedTo(s: State): int { s.current + if s.pc == Panned then 1 else 0 }

  /** The quantity that the thread conserves. */
  function Balance(s: State): int { s.clearCount + Uncleared(s) - s.current }

  ghost predicate CountersOk(s: State) {
    && 0 <= s.current <= s.last
    && (s.previous < 0 || s.previous == s.current - 1)
    && (s.pc == Panned ==> s.current < s.last)
    && (s.pc.ClearOld? ==> s.previous == s.current - 1 && (s.pc.prevPhase < 0 || s.pc.prevPhase == s.current - 2))
    && (s.pc == Lock || s.pc == Wait || s.pc == Wake ==> s.previous < 0)
    && (s.pc == Wake ==> s.current < s.last || s.shutdownRequest || s.clearRequest)
  }

  /** While the flag says that the display is on, the panel is on. */
  predicate FlagOk(d: Display) { !d.blanked ==> d.lit }

  /** Phases are consumed in order without gaps, and cleared in the same order, each exactly once. */
  ghost predicate HistoryOk(s: State, start: int) {
    && 0 <= start <= ClearedTo(s) <= ConsumedTo(s)
    && s.consumed == Range(start, ConsumedTo(s)) && s.cleared == Range(start, ClearedTo(s))
  }

  ghost predicate DisplayedOk(s: State) { forall p | p in s.displayed :: p in s.consumed }

  ghost predicate Inv(s: State, start: int) { CountersOk(s) && HistoryOk(s, start) && DisplayedOk(s) && FlagOk(s.display) }

  /** The thread as it is created: nothing consumed yet. */
  ghost predicate Initial(s: State, start: int) {
    && s.pc == Drain && s.previous < 0 && 0 <= s.current == start && s.current <= s.last
    && s.consumed == s.displayed == s.cleared == [] && FlagOk(s.display)
  }

  lemma RangeSnoc(lo: int, hi: int)
    requires lo <= hi
    ensures Range(lo, hi + 1) == Range(lo, hi) + [hi]
  {
  }

  lemma InRange(lo: int, hi: int, p: int)
    requires lo <= hi
    ensures p in Range(lo, hi) <==> lo <= p < hi
  {
    assert lo <= p < hi ==> Range(lo, hi)[p - lo] == p;
  }

  lemma CountersStep(s: State, e: Event)
    requires CountersOk(s)
    ensures CountersOk(Next(s, e)) && Balance(Next(s, e)) == Balance(s)
  {
    hide NormPhase, Pan, Blank, Unblank, InitRun;
  }

  /** A step consumes the next phase or none, and clears the next phase or none. */
  lemma StepBounds(s: State, e: Event)
    requires CountersOk(s)
    ensures var t := Next(s, e);
            if ConsumedTo(t) == ConsumedTo(s) then t.consumed == s.consumed
            else ConsumedTo(t) == ConsumedTo(s) + 1 && t.consumed == s.consumed + [ConsumedTo(s)]
    ensures var t := Next(s, e);
            if ClearedTo(t) == ClearedTo(s) then t.cleared == s.cleared
            else ClearedTo(t) == ClearedTo(s) + 1 && t.cleared == s.cleared + [ClearedTo(s)]
    ensures ClearedTo(Next(s, e)) <= ConsumedTo(Next(s, e))
  {
    hide NormPhase, Pan, Blank, Unblank, InitRun;
  }

  lemma HistoryStep(s: State, e: Event, start: int)
    requires CountersOk(s) && HistoryOk(s, start)
    ensures HistoryOk(Next(s, e), start)
  {
    StepBounds(s, e);
    RangeSnoc(start, ConsumedTo(s));
    RangeSnoc(start, ClearedTo(s));
    hide Next, Range, ClearedTo, ConsumedTo;
  }

  lemma DisplayedStep(s: State, e: Event)
    requires DisplayedOk(s) && FlagOk(s.display)
    ensures DisplayedOk(Next(s, e)) && FlagOk(Next(s, e).display)
  {
    hide NormPhase;
  }

  lemma StepKeepsInv(s: State, e: Event, start: int)
    requires Inv(s, start)
    ensures Inv(Next(s, e), start) && Balance(Next(s, e)) == Balance(s)
  {
    hide Next, Balance, CountersOk, HistoryOk, DisplayedOk;
    CountersStep(s, e);
    HistoryStep(s, e, start);
    DisplayedStep(s, e);
  }

  /** Over every interleaving: the invariant holds throughout and the balance never changes. */
  lemma {:induction false} EveryRun(s: State, schedule: seq<Event>, start: int)
    requires Inv(s, start)
    ensures Inv(Run(s, schedule), start) && Balance(Run(s, schedule)) == Balance(s)
    decreases |schedule|
  {
    if schedule != [] {
      StepKeepsInv(s, schedule[0], start);
      EveryRun(Next(s, schedule[0]), schedule[1..], start);
    }
  }

  lemma InitialInv(s: State, start: int)
    requires Initial(s, start)
    ensures Inv(s, start)
  {
  }

  // ----- The panel

  /** The call blank is made outside of an init waveform. */
  predicate CallsBlank(s: State, e: Event) {
    && e.Thread? && e.calls.blank && !s.display.blanked
    && (s.pc == Lock || (s.pc == Wait && s.current == s.last && !s.clearRequest && !s.shutdownRequest))
  }

  /** The call unblank is made outside of an init waveform. */
  predicate CallsUnblank(s: State, e: Event) {
    e.Thread? && s.pc == Wake && s.display.blanked && !s.clearRequest && !s.shutdownRequest
  }

  /** An init waveform runs, on a panel that is on at its start or can be turned on. */
  predicate RunsInit(s: State, e: Event) {
    e.Thread? && s.pc == Clear && s.clearRequest && e.calls.canClear && (s.display.blanked ==> e.calls.unblanks)
  }

  /**
   What every step does to the panel and to the flag, whatever calls fail: only calls that succeed turn the panel on or
   off; a failed blank sets the flag all the same, and an init waveform ends with a blank.
   */
  lemma PanelStep(s: State, e: Event)
    requires FlagOk(s.display)
    ensures var (lit, t) := (s.display.lit, Next(s, e).display);
            && t.lit == (if CallsBlank(s, e) then lit && !e.calls.blanks
                         else if CallsUnblank(s, e) then lit || e.calls.unblanks
                         else if RunsInit(s, e) then !e.calls.blanks
                         else lit)
            && t.blanked == if CallsUnblank(s, e) then !e.calls.unblanks
                            else s.display.blanked || CallsBlank(s, e) || RunsInit(s, e)
  {
    hide NormPhase;
  }

  // ----- Consumed, displayed, cleared

  /** The phase that the thread's next step clears. */
  function ClearedBy(s: State): Option<int> {
    match s.pc
    case ClearOld(prevPhase) => if prevPhase >= 0 then Some(prevPhase) else None
    case Settle => if s.previous >= 0 then Some(s.previous) else None
    case _ => None
  }

  /** A step passes phase `p` to the display. */
  ghost predicate Consumes(s: State, e: Event, p: int) { Next(s, e).consumed == s.consumed + [p] }

  /** In a step that passes a phase to the display, the call succeeds and the panel is on. */
  predicate ComesUp(s: State, e: Event) {
    e.Thread? && if s.pc == Drain then e.calls.pans && s.display.lit else e.calls.unblanks
  }

  /** In a step that passes a phase to the display, the offset register takes it. */
  predicate Registers(s: State, e: Event) {
    e.Thread? && if s.pc == Drain then e.calls.pans else e.calls.unblanks
  }

  /** The buffer of phase `p` is what the panel shows. */
  predicate OnDisplay(s: State, p: int) { s.display.lit && s.display.slot == NormPhase(p) }

  /** A step that pans successfully, to another phase or to the empty one. */
  predicate Moves(s: State, e: Event) {
    e.Thread? && e.calls.pans &&
    match s.pc
    case Drain => s.current != s.last
    case Idle => !s.display.blanked
    case Park => !s.display.blanked
    case Clear => s.clearRequest && e.calls.canClear
    case _ => false
  }

  /** An init waveform whose last pan fails: it leaves one of its own phases in the register. */
  predicate LeavesInit(s: State, e: Event) {
    e.Thread? && s.pc == Clear && s.clearRequest && e.calls.canClear && !e.calls.pans
  }

  /** Some step of a schedule pans successfully. */
  predicate Moved(s: State, schedule: seq<Event>)
    decreases |schedule|
  {
    schedule != [] && (Moves(s, schedule[0]) || Moved(Next(s, schedule[0]), schedule[1..]))
  }

  predicate InitLeft(s: State, schedule: seq<Event>)
    decreases |schedule|
  {
    schedule != [] && (LeavesInit(s, schedule[0]) || InitLeft(Next(s, schedule[0]), schedule[1..]))
  }

  /** One step, for a phase that was consumed and is not cleared afterwards. */
  lemma SlotStep(s: State, e: Event, start: int, p: int)
    requires Inv(s, start) && p in s.consumed && p !in Next(s, e).cleared && !LeavesInit(s, e)
    ensures Next(s, e).display.slot == NormPhase(p) <==> s.display.slot == NormPhase(p) && !Moves(s, e)
  {
    ClearedStays(s, e);
    PendingPhase(s, start, p);
    EmptySlot(p);
    if e.Thread? {
      hide NormPhase, HistoryOk, DisplayedOk, CountersOk;
      if s.pc == Drain && s.current != s.last { SlotsDiffer(p, s.current); }
      if s.pc == Wake { WakePending(s, start, p); }
    }
  }

  /** A consumed phase that is not cleared is one of the last two. */
  lemma PendingPhase(s: State, start: int, p: int)
    requires Inv(s, start) && p in s.consumed && p !in s.cleared
    ensures 0 <= ClearedTo(s) <= p < ConsumedTo(s)
  {
    hide Range;
    InRange(start, ClearedTo(s), p);
    InRange(start, ConsumedTo(s), p);
  }

  lemma ClearedStays(s: State, e: Event)
    ensures s.cleared <= Next(s, e).cleared && s.consumed <= Next(s, e).consumed
  {
  }

  /** When the thread wakes up everything is cleared. */
  lemma WakePending(s: State, start: int, p: int)
    requires Inv(s, start) && s.pc == Wake && p in s.consumed
    ensures p in s.cleared
  {
    if p !in s.cleared { PendingPhase(s, start, p); }
  }

  lemma SlotsDiffer(p: int, q: int)
    requires 0 <= p < q < p + PHASES
    ensures NormPhase(p) != NormPhase(q)
  {
  }

  lemma EmptySlot(p: int)
    requires p >= 0
    ensures 0 <= NormPhase(p) < EMPTY_PHASE
  {
  }

  lemma {:induction false} RunGrows(s: State, schedule: seq<Event>)
    ensures s.cleared <= Run(s, schedule).cleared && s.consumed <= Run(s, schedule).consumed
    decreases |schedule|
  {
    if schedule != [] {
      hide Next;
      ClearedStays(s, schedule[0]);
      RunGrows(Next(s, schedule[0]), schedule[1..]);
    }
  }

  /** A whole schedule: the register still holds the phase's slot iff it did at first and no pan has succeeded since. */
  lemma {:induction false} SlotOver(s: State, schedule: seq<Event>, start: int, p: int)
    requires Inv(s, start) && p in s.consumed && p !in Run(s, schedule).cleared && !InitLeft(s, schedule)
    ensures Run(s, schedule).display.slot == NormPhase(p) <==> s.display.slot == NormPhase(p) && !Moved(s, schedule)
    decreases |schedule|
  {
    if schedule != [] {
      hide Next, Inv, Moves, LeavesInit, NormPhase;
      var next := Next(s, schedule[0]);
      StepKeepsInv(s, schedule[0], start);
      ClearedStays(s, schedule[0]);
      RunGrows(next, schedule[1..]);
      SlotStep(s, schedule[0], start, p);
      SlotOver(next, schedule[1..], start, p);
    }
  }

  /** Whether a consumed phase has been displayed never changes later. */
  lemma DisplayedOnce(s: State, e: Event, start: int, p: int)
    requires Inv(s, start) && p in s.consumed
    ensures p in Next(s, e).displayed <==> p in s.displayed
  {
    InRange(start, ConsumedTo(s), p);
    hide NormPhase, Range, CountersOk, Pan, Blank, Unblank, InitRun;
  }

  lemma {:induction false} DisplayedOver(s: State, schedule: seq<Event>, start: int, p: int)
    requires Inv(s, start) && p in s.consumed
    ensures p in Run(s, schedule).displayed <==> p in s.displayed
    decreases |schedule|
  {
    if schedule != [] {
      hide Next, Inv;
      StepKeepsInv(s, schedule[0], start);
      ClearedStays(s, schedule[0]);
      DisplayedOnce(s, schedule[0], start, p);
      DisplayedOver(Next(s, schedule[0]), schedule[1..], start, p);
    }
  }

  /** A consumed phase was consumed at some step. */
  lemma {:induction false} ConsumedAt(s: State, schedule: seq<Event>, p: int) returns (i: nat)
    requires p !in s.consumed && p in Run(s, schedule).consumed
    ensures i < |schedule| && Consumes(Run(s, schedule[..i]), schedule[i], p)
    decreases |schedule|
  {
    var next := Next(s, schedule[0]);
    if p in next.consumed {
      i := 0;
    } else {
      hide Next;
      i := ConsumedAt(next, schedule[1..], p);
      i := i + 1;
      assert schedule[..i][1..] == schedule[1..][..i - 1];
    }
  }

  /** The step that consumes a phase displays it iff the call succeeds with the panel on. */
  lemma ConsumingStep(s: State, e: Event, start: int, p: int)
    requires Inv(s, start) && Consumes(s, e, p)
    ensures p in Next(s, e).consumed
    ensures p in Next(s, e).displayed <==> ComesUp(s, e)
    ensures Registers(s, e) ==> Next(s, e).display.slot == NormPhase(p)
  {
    assert p == Next(s, e).consumed[|s.consumed|];
    StepBounds(s, e);
    InRange(start, ConsumedTo(s), p);
    hide NormPhase, Range, Blank, InitRun;
  }

  lemma {:induction false} SplitAt(s: State, schedule: seq<Event>, i: nat)
    requires i < |schedule|
    ensures Run(s, schedule[..i + 1]) == Next(Run(s, schedule[..i]), schedule[i])
    ensures Run(s, schedule) == Run(Run(s, schedule[..i + 1]), schedule[i + 1..])
  {
    hide Next;
    assert schedule[..i + 1] == schedule[..i] + [schedule[i]];
    RunConcat(s, schedule[..i], [schedule[i]]);
    assert Run(Run(s, schedule[..i]), [schedule[i]]) == Next(Run(s, schedule[..i]), schedule[i]);
    assert schedule == schedule[..i + 1] + schedule[i + 1..];
    RunConcat(s, schedule[..i + 1], schedule[i + 1..]);
  }

  /**
   What clearing meets, over every run and whatever calls fail. The phase that is about to be cleared was passed to the
   display at one step `i` and has not been cleared before. It was displayed iff that call came up. And it is on the
   display now iff the panel is on, the register took its slot, and no pan has succeeded since; the only exception is
   an init waveform since then that could not pan to the empty phase.
   */
  lemma ClearedPhase(s: State, schedule: seq<Event>, start: int, p: int) returns (i: nat)
    requires Initial(s, start) && ClearedBy(Run(s, schedule)) == Some(p)
    ensures i < |schedule| && Consumes(Run(s, schedule[..i]), schedule[i], p)
    ensures p in Run(s, schedule).consumed && p !in Run(s, schedule).cleared
    ensures p in Run(s, schedule).displayed <==> ComesUp(Run(s, schedule[..i]), schedule[i])
    ensures var (shown, after) := (Run(s, schedule[..i + 1]), schedule[i + 1..]);
            && (Registers(Run(s, schedule[..i]), schedule[i]) ==> shown.display.slot == NormPhase(p))
            && (!InitLeft(shown, after) ==>
                  (OnDisplay(Run(s, schedule), p) <==>
                     Run(s, schedule).display.lit && shown.display.slot == NormPhase(p) && !Moved(shown, after)))
  {
    InitialInv(s, start);
    EveryRun(s, schedule, start);
    ClearedIsPending(Run(s, schedule), start, p);
    i := ConsumedAt(s, schedule, p);
    EveryRun(s, schedule[..i], start);
    hide Next, Inv, NormPhase, Registers, ComesUp, InitLeft, Moved;
    SplitAt(s, schedule, i);
    var before := Run(s, schedule[..i]);
    ConsumingStep(before, schedule[i], start, p);
    StepKeepsInv(before, schedule[i], start);
    DisplayedOver(Next(before, schedule[i]), schedule[i + 1..], start, p);
    if !InitLeft(Next(before, schedule[i]), schedule[i + 1..]) {
      SlotOver(Next(before, schedule[i]), schedule[i + 1..], start, p);
    }
  }

  lemma ClearedIsPending(s: State, start: int, p: int)
    requires Inv(s, start) && ClearedBy(s) == Some(p)
    ensures p in s.consumed && p !in s.cleared && p == ClearedTo(s) >= 0
  {
    InRange(start, ClearedTo(s), p);
    InRange(start, ConsumedTo(s), p);
    hide Range, NormPhase;
  }

  /** All calls of a schedule succeed. */
  predicate CallsSucceed(schedule: seq<Event>) {
    forall e | e in schedule && e.Thread? :: e.calls.pans && e.calls.unblanks && e.calls.blanks
  }

  /** While all calls succeed the display is off a phase before it is cleared. */
  ghost predicate Tidy(s: State) {
    && s.display.blanked == !s.display.lit
    && (s.pc == Panned ==> s.display.slot == NormPhase(s.current))
    && (s.pc.ClearOld? ==> s.display.slot == NormPhase(s.current - 1))
    && (s.pc == Settle ==> s.display.blanked || s.display.slot == EMPTY_PHASE)
  }

  lemma TidyStep(s: State, e: Event)
    requires Tidy(s) && CallsSucceed([e])
    ensures Tidy(Next(s, e))
  {
    hide NormPhase;
    assert e in [e];
  }

  lemma {:induction false} TidyRun(s: State, schedule: seq<Event>)
    requires Tidy(s) && CallsSucceed(schedule)
    ensures Tidy(Run(s, schedule))
    decreases |schedule|
  {
    if schedule != [] {
      hide Next, Tidy;
      TidyStep(s, schedule[0]);
      TidyRun(Next(s, schedule[0]), schedule[1..]);
    }
  }

  /** So if all calls succeed, no phase is cleared while it is on the display. */
  lemma NeverClearedWhileShown(s: State, schedule: seq<Event>, start: int, p: int)
    requires Initial(s, start) && s.display.blanked == !s.display.lit && CallsSucceed(schedule)
    requires ClearedBy(Run(s, schedule)) == Some(p)
    ensures !OnDisplay(Run(s, schedule), p)
  {
    InitialInv(s, start);
    EveryRun(s, schedule, start);
    TidyRun(s, schedule);
    var t := Run(s, schedule);
    ClearedIsPending(t, start, p);
    if t.pc.ClearOld? { SlotsDiffer(p, t.current - 1); } else { EmptySlot(p); }
  }

  // ----- Phases that are never seen although all calls succeed

  /** The step turns the panel on: work is there and no request is pending. */
  predicate Lights(s: State, e: Event) {
    e.Thread? && s.pc == Wake && s.display.blanked && !s.shutdownRequest && !s.clearRequest
  }

  /** The step turns the panel off: by a blank while waiting, or by an init waveform, which ends with one. */
  predicate Darkens(s: State, e: Event) {
    && e.Thread?
    && (|| (s.pc == Lock && e.calls.blank)
        || (s.pc == Wait && e.calls.blank && s.current == s.last && !s.shutdownRequest && !s.clearRequest)
        || (s.pc == Clear && s.clearRequest && e.calls.canClear))
  }

  /** The panel after a schedule, from the steps that turn it on and off. */
  predicate LitBy(s: State, schedule: seq<Event>, lit: bool)
    decreases |schedule|
  {
    if schedule == [] then lit
    else LitBy(Next(s, schedule[0]), schedule[1..], Lights(s, schedule[0]) || (lit && !Darkens(s, schedule[0])))
  }

  lemma LitStep(s: State, e: Event)
    requires Tidy(s) && CallsSucceed([e])
    ensures Next(s, e).display.lit <==> Lights(s, e) || (s.display.lit && !Darkens(s, e))
  {
    hide NormPhase;
    assert e in [e];
  }

  lemma {:induction false} LitRun(s: State, schedule: seq<Event>)
    requires Tidy(s) && CallsSucceed(schedule)
    ensures Run(s, schedule).display.lit <==> LitBy(s, schedule, s.display.lit)
    decreases |schedule|
  {
    if schedule != [] {
      hide Next, Tidy, Lights, Darkens;
      TidyStep(s, schedule[0]);
      LitStep(s, schedule[0]);
      LitRun(Next(s, schedule[0]), schedule[1..]);
    }
  }

  /** The inner loop takes phases only while the panel is on. */
  predicate DrainsLit(s: State, schedule: seq<Event>, lit: bool)
    decreases |schedule|
  {
    schedule != [] ==>
      && (schedule[0].Thread? && s.pc == Drain && s.current != s.last ==> lit)
      && DrainsLit(Next(s, schedule[0]), schedule[1..], Lights(s, schedule[0]) || (lit && !Darkens(s, schedule[0])))
  }

  /** All phases that a schedule passes to the display are displayed. */
  ghost predicate AllSeen(s: State, schedule: seq<Event>) {
    forall p | p in Run(s, schedule).consumed && p !in s.consumed :: p in Run(s, schedule).displayed
  }

  /**
   When all calls succeed, every phase consumed is displayed iff the inner loop never takes one while the panel is off:
   after it was turned off and before a step at Wake without a pending request turns it on.
   */
  lemma {:induction false} AllSeenIff(s: State, schedule: seq<Event>, start: int)
    requires Inv(s, start) && Tidy(s) && CallsSucceed(schedule)
    ensures AllSeen(s, schedule) <==> DrainsLit(s, schedule, s.display.lit)
    decreases |schedule|
  {
    if schedule != [] {
      var (e, next, rest) := (schedule[0], Next(s, schedule[0]), schedule[1..]);
      TidyStep(s, e);
      LitStep(s, e);
      StepKeepsInv(s, e, start);
      StepSeen(s, e, start);
      AllSeenIff(next, rest, start);
      hide Next, Inv, Tidy, Lights, Darkens;
      SeenSplits(s, e, rest, start);
    }
  }

  /** What a schedule passes to the display, in its first step and later. */
  lemma SeenSplits(s: State, e: Event, rest: seq<Event>, start: int)
    requires Inv(Next(s, e), start)
    ensures var (next, end) := (Next(s, e), Run(Next(s, e), rest));
            (forall p | p in end.consumed && p !in s.consumed :: p in end.displayed)
            <==> AllSeen(next, rest) && forall p | p in next.consumed && p !in s.consumed :: p in next.displayed
  {
    var (next, end) := (Next(s, e), Run(Next(s, e), rest));
    ClearedStays(s, e);
    RunGrows(next, rest);
    forall p | p in next.consumed ensures p in end.displayed <==> p in next.displayed {
      DisplayedOver(next, rest, start, p);
    }
    hide Next, Inv, Run;
  }

  /** The phase of a consuming step, if it is one, is displayed unless the step is in the inner loop on a dark panel. */
  lemma StepSeen(s: State, e: Event, start: int)
    requires Inv(s, start) && Tidy(s) && CallsSucceed([e])
    ensures (forall p | p in Next(s, e).consumed && p !in s.consumed :: p in Next(s, e).displayed)
       <==> (e.Thread? && s.pc == Drain && s.current != s.last ==> s.display.lit)
  {
    InRange(start, ConsumedTo(s), s.current);
    if s.current in Next(s, e).consumed && s.current !in s.consumed { DisplayedOnlyConsumed(s, s.current); }
    hide NormPhase, Range, CountersOk, Pan, Blank, InitRun;
    assert e in [e];
  }

  lemma DisplayedOnlyConsumed(s: State, p: int)
    requires DisplayedOk(s) && p !in s.consumed
    ensures p !in s.displayed
  {
  }

  /** The panel is on, or will be before the inner loop takes a phase unless a request comes. */
  predicate Bright(s: State) {
    s.display.lit || s.pc == Idle || s.pc == Settle || s.pc == Lock || s.pc == Wait || s.pc == Wake
  }

  predicate NoRequests(s: State, schedule: seq<Event>) {
    && !s.clearRequest && !s.shutdownRequest
    && forall e | e in schedule :: e != RequestClear && e != RequestShutdown
  }

  lemma BrightStep(s: State, e: Event)
    requires Tidy(s) && Bright(s) && CallsSucceed([e]) && NoRequests(s, [e])
    ensures Bright(Next(s, e)) && !Next(s, e).clearRequest && !Next(s, e).shutdownRequest
  {
    hide NormPhase;
    assert e in [e];
  }

  /** Without requests every phase is displayed. */
  lemma {:induction false} SeenWithoutRequests(s: State, schedule: seq<Event>, start: int)
    requires Inv(s, start) && Tidy(s) && Bright(s) && CallsSucceed(schedule) && NoRequests(s, schedule)
    ensures AllSeen(s, schedule)
  {
    BrightRun(s, schedule);
    AllSeenIff(s, schedule, start);
  }

  lemma {:induction false} BrightRun(s: State, schedule: seq<Event>)
    requires Tidy(s) && Bright(s) && CallsSucceed(schedule) && NoRequests(s, schedule)
    ensures DrainsLit(s, schedule, s.display.lit)
    decreases |schedule|
  {
    if schedule != [] {
      var e := schedule[0];
      assert e in schedule && forall x | x in schedule[1..] :: x in schedule;
      TidyStep(s, e);
      LitStep(s, e);
      BrightStep(s, e);
      hide Next, Tidy, Lights, Darkens;
      BrightRun(Next(s, e), schedule[1..]);
    }
  }

  // ----- Shutdown, clear requests and progress

  /** Steps of the vsync thread in a schedule, and phases raised. */
  function ThreadSteps(schedule: seq<Event>): nat
    decreases |schedule|
  {
    if schedule == [] then 0 else (if schedule[0].Thread? then 1 else 0) + ThreadSteps(schedule[1..])
  }

  function Raised(schedule: seq<Event>): nat
    decreases |schedule|
  {
    if schedule == [] then 0 else (if schedule[0].Raise? then schedule[0].phases else 0) + Raised(schedule[1..])
  }

  /** Thread steps still needed to stop, once a shutdown is requested: three for each phase, and the rest of the pass. */
  function StepsToStop(s: State): int {
    match s.pc
    case Drain => 9 + 3 * (s.last - s.current)
    case Panned => 8 + 3 * (s.last - s.current)
    case ClearOld(_) => 10 + 3 * (s.last - s.current)
    case Idle => 8
    case Settle => 7
    case Lock => 6
    case Wait => 5
    case Wake => 4
    case Park => 3
    case Clear => 2
    case Exit => 1
    case Stopped => 0
  }

  lemma StopStep(s: State, e: Event)
    requires CountersOk(s) && s.shutdownRequest
    ensures Next(s, e).shutdownRequest && StepsToStop(s) >= 0 && (StepsToStop(s) == 0 <==> s.pc == Stopped)
    ensures e.Thread? && s.pc != Stopped ==> StepsToStop(Next(s, e)) < StepsToStop(s)
    ensures e.Thread? && s.pc == Stopped ==> Next(s, e) == s
    ensures !e.Thread? ==> StepsToStop(Next(s, e)) <= StepsToStop(s) + if e.Raise? then 3 * e.phases else 0
  {
    hide NormPhase, Pan, Blank, Unblank, InitRun;
  }

  /**
   A shutdown request stops the thread: within three steps for each phase that waits or is raised meanwhile, and ten more
   for one pass.
   */
  lemma {:induction false} ShutdownStops(s: State, schedule: seq<Event>, start: int)
    requires Inv(s, start) && s.shutdownRequest
    requires ThreadSteps(schedule) >= 10 + 3 * (s.last - s.current) + 3 * Raised(schedule)
    ensures Run(s, schedule).pc == Stopped
  {
    StepsBounded(s);
    StopsWithin(s, schedule, start);
  }

  lemma StepsBounded(s: State)
    requires CountersOk(s)
    ensures StepsToStop(s) <= 10 + 3 * (s.last - s.current)
  {
  }

  lemma {:induction false} StopsWithin(s: State, schedule: seq<Event>, start: int)
    requires Inv(s, start) && s.shutdownRequest && ThreadSteps(schedule) >= StepsToStop(s) + 3 * Raised(schedule)
    ensures Run(s, schedule).pc == Stopped
    decreases |schedule|
  {
    StopStep(s, RequestClear);
    if s.pc == Stopped {
      StaysStopped(s, schedule);
    } else if schedule != [] {
      StepKeepsInv(s, schedule[0], start);
      StopStep(s, schedule[0]);
      hide Next, Inv, StepsToStop;
      StopsWithin(Next(s, schedule[0]), schedule[1..], start);
    }
  }

  lemma {:induction false} StaysStopped(s: State, schedule: seq<Event>)
    requires s.pc == Stopped
    ensures Run(s, schedule).pc == Stopped
    decreases |schedule|
  {
    if schedule != [] { StaysStopped(Next(s, schedule[0]), schedule[1..]); }
  }

  /** Only a shutdown request stops it. */
  lemma {:induction false} StoppedByRequest(s: State, schedule: seq<Event>)
    requires s.pc == Stopped ==> s.shutdownRequest
    ensures Run(s, schedule).pc == Stopped ==> Run(s, schedule).shutdownRequest
    ensures Run(s, schedule).shutdownRequest <==> s.shutdownRequest || RequestShutdown in schedule
    decreases |schedule|
  {
    if schedule != [] {
      StopOnlyStep(s, schedule[0]);
      hide Next;
      StoppedByRequest(Next(s, schedule[0]), schedule[1..]);
      assert RequestShutdown in schedule <==> schedule[0] == RequestShutdown || RequestShutdown in schedule[1..];
    }
  }

  lemma StopOnlyStep(s: State, e: Event)
    requires s.pc == Stopped ==> s.shutdownRequest
    ensures Next(s, e).pc == Stopped ==> Next(s, e).shutdownRequest
    ensures Next(s, e).shutdownRequest <==> s.shutdownRequest || e == RequestShutdown
  {
    hide NormPhase, Pan, Blank, Unblank, InitRun;
  }

  /** The thread has yet to look at clear requests before it can stop. */
  predicate BeforeRequests(s: State) { s.pc != Exit && s.pc != Stopped }

  /** A clear request is served before the thread stops, unless it comes after its last look. */
  lemma {:induction false} ClearServed(s: State, schedule: seq<Event>)
    requires BeforeRequests(s) || !s.clearRequest
    requires RequestClear !in schedule
    ensures Run(s, schedule).pc == Stopped ==> !Run(s, schedule).clearRequest
    decreases |schedule|
  {
    if schedule != [] {
      ServeStep(s, schedule[0]);
      hide Next;
      ClearServed(Next(s, schedule[0]), schedule[1..]);
    }
  }

  lemma ServeStep(s: State, e: Event)
    requires (BeforeRequests(s) || !s.clearRequest) && e != RequestClear
    ensures BeforeRequests(Next(s, e)) || !Next(s, e).clearRequest
  {
    hide NormPhase, Pan, Blank, Unblank, InitRun;
  }

  /** A pass that begins at Wake takes up to this many steps back to the inner loop. */
  function StepsToRest(s: State): int {
    var phases := 3 * (s.last - s.current);
    var again := if s.last == s.current then 0 else 9 + phases;
    match s.pc
    case Drain => 4 + phases
    case Panned => 3 + phases
    case ClearOld(_) => 5 + phases
    case Idle => 3 + again
    case Settle => 2 + again
    case Lock => 1 + again
    case Wait => again
    case Wake => 8 + phases
    case Park => 7 + phases
    case Clear => 6 + phases
    case Exit => 5 + phases
    case Stopped => 0
  }

  /** No phase waits and the thread is waiting. */
  predicate AtRest(s: State) { s.pc == Wait && s.current == s.last }

  lemma RestStep(s: State, calls: Calls)
    requires CountersOk(s) && !s.clearRequest && !s.shutdownRequest && s.pc != Stopped
    ensures var t := ThreadStep(s, calls);
            && !t.clearRequest && !t.shutdownRequest && t.pc != Stopped && t.last == s.last
            && StepsToRest(s) >= 0 && (StepsToRest(s) == 0 <==> AtRest(s))
            && (if AtRest(s) then AtRest(t) else StepsToRest(t) < StepsToRest(s))
  {
    hide NormPhase, Pan, Blank, Unblank, InitRun;
  }

  /**
   Every phase raised is consumed and cleared: without requests and new phases the thread comes to rest within three
   steps for each phase that waits and twelve more, whatever calls fail.
   */
  lemma {:induction false} EverythingCleared(s: State, schedule: seq<Event>, start: int)
    requires Inv(s, start) && !s.clearRequest && !s.shutdownRequest && s.pc != Stopped
    requires (forall e | e in schedule :: e.Thread?) && |schedule| >= 12 + 3 * (s.last - s.current)
    ensures AtRest(Run(s, schedule))
    ensures Run(s, schedule).consumed == Run(s, schedule).cleared == Range(start, s.last)
  {
    RestBounded(s);
    RestsWithin(s, schedule, start);
    EveryRun(s, schedule, start);
  }

  lemma RestBounded(s: State)
    requires CountersOk(s)
    ensures StepsToRest(s) <= 12 + 3 * (s.last - s.current)
  {
  }

  lemma {:induction false} RestsWithin(s: State, schedule: seq<Event>, start: int)
    requires Inv(s, start) && !s.clearRequest && !s.shutdownRequest && s.pc != Stopped
    requires (forall e | e in schedule :: e.Thread?) && |schedule| >= StepsToRest(s)
    ensures AtRest(Run(s, schedule)) && Run(s, schedule).last == s.last
    decreases |schedule|
  {
    RestStep(s, Calls(false, false, false, false, false, 0));
    if schedule != [] {
      assert schedule[0] in schedule && forall e | e in schedule[1..] :: e in schedule;
      StepKeepsInv(s, schedule[0], start);
      RestStep(s, schedule[0].calls);
      hide ThreadStep, Inv, StepsToRest, AtRest;
      RestsWithin(Next(s, schedule[0]), schedule[1..], start);
    }
  }

  // ----- Runs that fail

  const OKAY := Thread(Calls(false, true, true, true, true, 0))
  const FAIL := Thread(Calls(false, false, false, false, false, 0))

  /** A waiting thread before its first phase, with a dark panel. */
  function Dark(pc: Pc, last: int, clearRequest: bool): State {
    State(pc, 0, last, -1, 0, Display(true, false, EMPTY_PHASE), clearRequest, false, [], [], [])
  }

  /** Step `k` of a schedule. */
  lemma Step(schedule: seq<Event>, k: nat, s: State, t: State)
    requires k < |schedule| && Next(s, schedule[k]) == t
    ensures Run(s, schedule[k..]) == Run(t, schedule[k + 1..])
  {
    assert schedule[k..][1..] == schedule[k + 1..];
  }

  /** The ends of a schedule. */
  lemma Whole(schedule: seq<Event>, s: State, t: State)
    ensures Run(s, schedule[0..]) == Run(s, schedule) && Run(t, schedule[|schedule|..]) == t
  {
    assert schedule[0..] == schedule && schedule[|schedule|..] == [];
  }

  /** Phase 0 comes up, the pan to phase 1 fails, and phase 0 is cleared on the display. */
  lemma ClearedOnDisplay() returns (s: State, schedule: seq<Event>)
    ensures Initial(s, 0) && ClearedBy(Run(s, schedule)) == Some(0) && OnDisplay(Run(s, schedule), 0)
  {
    s := State(Drain, 0, 2, -1, 0, Display(false, true, EMPTY_PHASE), false, false, [], [], []);
    schedule := [OKAY, OKAY, OKAY, FAIL, FAIL];
    var up := Display(false, true, 0);
    var s1 := State(Panned, 0, 2, -1, 0, up, false, false, [0], [0], []);
    var s2 := State(ClearOld(-1), 1, 2, 0, 0, up, false, false, [0], [0], []);
    var s3 := s2.(pc := Drain);
    var s4 := State(Panned, 1, 2, 0, 0, up, false, false, [0, 1], [0], []);
    var s5 := State(ClearOld(0), 2, 2, 1, 0, up, false, false, [0, 1], [0], []);
    hide Run;
    Step(schedule, 0, s, s1);
    Step(schedule, 1, s1, s2);
    Step(schedule, 2, s2, s3);
    Step(schedule, 3, s3, s4);
    Step(schedule, 4, s4, s5);
    Whole(schedule, s, s5);
  }

  /** From the start to the first wait, whether or not calls succeed. */
  lemma FallsAsleep(e: Event, schedule: seq<Event>)
    requires (e == OKAY || e == FAIL) && schedule == [e, e, e, e]
    ensures Run(Dark(Drain, 0, false), schedule) == Dark(Wait, 0, false)
  {
    hide Run;
    Step(schedule, 0, Dark(Drain, 0, false), Dark(Idle, 0, false));
    Step(schedule, 1, Dark(Idle, 0, false), Dark(Settle, 0, false));
    Step(schedule, 2, Dark(Settle, 0, false), Dark(Lock, 0, false));
    Step(schedule, 3, Dark(Lock, 0, false), Dark(Wait, 0, false));
    Whole(schedule, Dark(Drain, 0, false), Dark(Wait, 0, false));
  }

  /** A blanked display whose unblanking fails: phase 0 is consumed and cleared without ever having been displayed. */
  lemma ClearedUnseen() returns (s: State, schedule: seq<Event>)
    ensures Initial(s, 0) && ClearedBy(Run(s, schedule)) == Some(0) && Run(s, schedule).displayed == []
  {
    s := Dark(Drain, 0, false);
    var asleep, awake, unseen := [FAIL, FAIL, FAIL, FAIL], [Raise(1), FAIL, FAIL], [FAIL, FAIL, FAIL, FAIL, FAIL];
    schedule := asleep + (awake + unseen);
    FallsAsleep(FAIL, asleep);
    MissesWake(awake);
    ClearsUnseen(unseen);
    hide Next, Run;
    RunConcat(s, asleep, awake + unseen);
    RunConcat(Dark(Wait, 0, false), awake, unseen);
  }

  /** Phase 0 passed to a dark panel that stays dark. */
  function Missed(pc: Pc): State {
    State(pc, 1, 1, 0, 0, Display(true, false, EMPTY_PHASE), false, false, [0], [], [])
  }

  lemma MissesWake(schedule: seq<Event>)
    requires schedule == [Raise(1), FAIL, FAIL]
    ensures Run(Dark(Wait, 0, false), schedule) == Missed(Park)
  {
    hide Run;
    Step(schedule, 0, Dark(Wait, 0, false), Dark(Wait, 1, false));
    Step(schedule, 1, Dark(Wait, 1, false), Dark(Wake, 1, false));
    Step(schedule, 2, Dark(Wake, 1, false), Missed(Park));
    Whole(schedule, Dark(Wait, 0, false), Missed(Park));
  }

  lemma ClearsUnseen(schedule: seq<Event>)
    requires schedule == [FAIL, FAIL, FAIL, FAIL, FAIL]
    ensures Run(Missed(Park), schedule) == Missed(Settle)
  {
    hide Run;
    Step(schedule, 0, Missed(Park), Missed(Clear));
    Step(schedule, 1, Missed(Clear), Missed(Exit));
    Step(schedule, 2, Missed(Exit), Missed(Drain));
    Step(schedule, 3, Missed(Drain), Missed(Idle));
    Step(schedule, 4, Missed(Idle), Missed(Settle));
    Whole(schedule, Missed(Park), Missed(Settle));
  }

  /**
   All calls succeed, and phase 0 is consumed and cleared without having been displayed: it arrives while a clear request
   is pending, the init waveform turns the panel off, and the inner loop takes the phase. The waveform also overwrites
   slot 0, in which the phase waits.
   */
  lemma ClearedDark() returns (s: State, before: seq<Event>, after: seq<Event>)
    ensures Initial(s, 0) && Tidy(s) && CallsSucceed(before + after)
    ensures var t := Run(s, before); t.pc == Clear && t.clearRequest && Waiting(t, 0) && NormPhase(0) < INIT_SLOTS
    ensures var t := Run(s, before + after); ClearedBy(t) == Some(0) && t.consumed == [0] && t.displayed == []
  {
    s := Dark(Drain, 0, false);
    var asleep, awake := [OKAY, OKAY, OKAY, OKAY], [RequestClear, OKAY, Raise(1), OKAY, OKAY];
    before := asleep + awake;
    after := [OKAY, OKAY, OKAY, OKAY, OKAY, OKAY, OKAY];
    FallsAsleep(OKAY, asleep);
    ReachesClear(awake);
    TakenDark(after);
    AllOkay(before + after);
    hide Next, Run, CallsSucceed;
    RunConcat(s, asleep, awake);
    RunConcat(s, before, after);
  }

  lemma AllOkay(schedule: seq<Event>)
    requires forall e | e in schedule :: e == OKAY || !e.Thread?
    ensures CallsSucceed(schedule)
  {
  }

  lemma ReachesClear(schedule: seq<Event>)
    requires schedule == [RequestClear, OKAY, Raise(1), OKAY, OKAY]
    ensures Run(Dark(Wait, 0, false), schedule) == Dark(Clear, 1, true)
  {
    hide Run;
    Step(schedule, 0, Dark(Wait, 0, false), Dark(Wait, 0, true));
    Step(schedule, 1, Dark(Wait, 0, true), Dark(Wake, 0, true));
    Step(schedule, 2, Dark(Wake, 0, true), Dark(Wake, 1, true));
    Step(schedule, 3, Dark(Wake, 1, true), Dark(Park, 1, true));
    Step(schedule, 4, Dark(Park, 1, true), Dark(Clear, 1, true));
    Whole(schedule, Dark(Wait, 0, false), Dark(Clear, 1, true));
  }

  lemma TakenDark(schedule: seq<Event>)
    requires schedule == [OKAY, OKAY, OKAY, OKAY, OKAY, OKAY, OKAY]
    ensures var t := Run(Dark(Clear, 1, true), schedule); ClearedBy(t) == Some(0) && t.consumed == [0] && t.displayed == []
  {
    var off := Display(true, false, 0);
    var s1 := State(Panned, 0, 1, -1, 0, off, false, false, [0], [], []);
    var s2 := State(ClearOld(-1), 1, 1, 0, 0, off, false, false, [0], [], []);
    hide Run;
    Step(schedule, 0, Dark(Clear, 1, true), Dark(Exit, 1, false));
    Step(schedule, 1, Dark(Exit, 1, false), Dark(Drain, 1, false));
    Step(schedule, 2, Dark(Drain, 1, false), s1);
    Step(schedule, 3, s1, s2);
    ClearsTaken(schedule, s2);
    hide Next;
    Whole(schedule, Dark(Clear, 1, true), s2.(pc := Settle));
  }

  lemma ClearsTaken(schedule: seq<Event>, s: State)
    requires schedule == [OKAY, OKAY, OKAY, OKAY, OKAY, OKAY, OKAY]
    requires s == State(ClearOld(-1), 1, 1, 0, 0, Display(true, false, 0), false, false, [0], [], [])
    ensures Run(s, schedule[4..]) == Run(s.(pc := Settle), schedule[7..])
  {
    hide Run;
    Step(schedule, 4, s, s.(pc := Drain));
    Step(schedule, 5, s.(pc := Drain), s.(pc := Idle));
    Step(schedule, 6, s.(pc := Idle), s.(pc := Settle));
  }

  // ----- What waits in the ring

  /** Whenever the thread waits for work, every phase it has consumed has been cleared exactly once, in order. */
  lemma AllClearedWhenWaiting(s: State, schedule: seq<Event>, start: int)
    requires Initial(s, start) && Run(s, schedule).pc == Wait
    ensures var t := Run(s, schedule);
            && start <= t.current && t.cleared == t.consumed == Range(start, t.current)
            && t.clearCount == s.clearCount + |t.cleared|
  {
    InitialInv(s, start);
    EveryRun(s, schedule, start);
  }

  /**
   The count that the generator waits on is the number of phases cleared. So when it fills a slot of the ring only once
   at most 16 of its phases are uncleared, clearing never hits the slot of a phase that is still to be shown.
   */
  lemma ClearingSparesPending(s: State, schedule: seq<Event>, start: int, p: int, q: int)
    requires Initial(s, start) && ClearedBy(Run(s, schedule)) == Some(p)
    requires var t := Run(s, schedule);
             t.last <= start + (t.clearCount - s.clearCount) + PHASES && t.current <= q < t.last
    ensures Run(s, schedule).clearCount - s.clearCount == |Run(s, schedule).cleared|
    ensures NormPhase(q) != NormPhase(p)
  {
    InitialInv(s, start);
    EveryRun(s, schedule, start);
    ClearedIsPending(Run(s, schedule), start, p);
    SlotsDiffer(p, q);
  }

  /** The phases that wait to be shown. */
  predicate Waiting(s: State, q: int) { s.current <= q < s.last }

  /**
   A clear request overwrites slots 0 to 2. It spares every waiting phase iff nothing waits, or all of it lies after
   slot 2 and before the next wrap of the ring.
   */
  lemma InitSparesWaiting(s: State)
    requires 0 <= s.current <= s.last
    ensures (forall q | Waiting(s, q) :: NormPhase(q) >= INIT_SLOTS)
       <==> s.current == s.last || (s.current % PHASES >= INIT_SLOTS && s.last <= s.current - s.current % PHASES + PHASES)
  {
    var wrap := s.current - s.current % PHASES + PHASES;
    if s.current < s.last {
      assert Waiting(s, s.current);
      if wrap < s.last {
        assert Waiting(s, wrap) && NormPhase(wrap) == 0;
      } else {
        forall q | Waiting(s, q) ensures NormPhase(q) == q - (wrap - PHASES) { SameLap(q, wrap - PHASES); }
      }
    }
  }

  lemma SameLap(q: int, lap: int)
    requires 0 <= lap <= q < lap + PHASES && lap % PHASES == 0
    ensures NormPhase(q) == q - lap
  {
  }

  /** In the buffers: the contents of the waiting phases survive iff those in slots 0 to 2 had none. */
  lemma InitKeepsWaiting(s: State, before: seq<seq<Line>>, after: seq<seq<Line>>, none: seq<Line>)
    requires 0 <= s.current && |before| == PHASES && after == before[0 := none][1 := none][2 := none]
    ensures (forall q | Waiting(s, q) :: 0 <= NormPhase(q) < PHASES && after[NormPhase(q)] == before[NormPhase(q)])
       <==> forall q | Waiting(s, q) ::
              0 <= NormPhase(q) < PHASES && (NormPhase(q) < INIT_SLOTS ==> before[NormPhase(q)] == none)
  {
    forall q | Waiting(s, q) ensures 0 <= NormPhase(q) < PHASES { EmptySlot(q); }
    hide NormPhase;
  }

  // ----- The thread itself, updating the shared variables and the pan buffers in place

  /** A line that the generator writes into a phase. */
  datatype Column = Column(at: nat, line: Line)

  class VsyncThread {
    const buffers: Buffers
    var pc: Pc
    var currentPanPhase: int
    var lastPanPhase: int
    var previousPanPhase: int
    var dirtyClearCount: int
    var display: Display
    var vsyncClearRequest: bool
    var vsyncShutdownRequest: bool
    ghost var consumed: seq<int>
    ghost var displayed: seq<int>
    ghost var cleared: seq<int>

    ghost function Snapshot(): State
      reads this
    {
      State(pc, currentPanPhase, lastPanPhase, previousPanPhase, dirtyClearCount, display, vsyncClearRequest,
            vsyncShutdownRequest, consumed, displayed, cleared)
    }

    constructor (buffers: Buffers, first: int)
      requires first >= 0
      ensures this.buffers == buffers && Initial(Snapshot(), first)
    {
      this.buffers := buffers;
      pc, currentPanPhase, lastPanPhase, previousPanPhase, dirtyClearCount := Drain, first, first, -1, 0;
      display := Display(true, false, EMPTY_PHASE);
      vsyncClearRequest, vsyncShutdownRequest := false, false;
      consumed, displayed, cleared := [], [], [];
    }

    /** The buffers after the step that follows state `s`: the phase it clears loses content and flags, no other does. */
    ghost function ContentsAfter(s: State, contents: seq<seq<Line>>): seq<seq<Line>>
      requires buffers.Valid() && |contents| == PHASES && (ClearedBy(s).Some? ==> ClearedBy(s).value >= 0)
    {
      if ClearedBy(s).Some? then contents[NormPhase(ClearedBy(s).value) := buffers.NoContent()] else contents
    }

    ghost function FlagsAfter(s: State, flags: seq<seq<bv8>>): seq<seq<bv8>>
      requires |flags| == PHASES && (ClearedBy(s).Some? ==> ClearedBy(s).value >= 0)
    {
      if ClearedBy(s).Some? then flags[NormPhase(ClearedBy(s).value) := buffers.NoFlags()] else flags
    }

    /** clearDirtyBuffer and the counter. */
    method ClearAndCount(pan: int)
      requires buffers.Valid() && pan >= 0 && buffers.AllCovered()
      modifies this`dirtyClearCount, this`cleared, buffers.lines, buffers.dirtyColumns
      ensures dirtyClearCount == old(dirtyClearCount) + 1 && cleared == old(cleared) + [pan]
      ensures buffers.Contents() == old(buffers.Contents())[NormPhase(pan) := buffers.NoContent()]
      ensures buffers.AllFlags() == old(buffers.AllFlags())[NormPhase(pan) := buffers.NoFlags()]
      ensures buffers.AllCovered()
    {
      buffers.ClearDirtyBuffer(pan);
      dirtyClearCount := dirtyClearCount + 1;
      cleared := cleared + [pan];
    }

    /** fb::pan, whose result nobody looks at. */
    method PanTo(slot: int, pans: bool)
      modifies this`display
      ensures display == Pan(old(display), slot, pans)
    {
      if pans { display := display.(slot := slot); }
    }

    /** Lines 59-75: show the next phase, then clear the one before it. */
    method StepDrain(calls: Calls)
      requires buffers.Valid() && buffers.AllCovered() && (pc == Drain || pc == Panned || pc.ClearOld?)
      modifies this, buffers.lines, buffers.dirtyColumns
      ensures Snapshot() == ThreadStep(old(Snapshot()), calls) && buffers.AllCovered()
      ensures buffers.Contents() == ContentsAfter(old(Snapshot()), old(buffers.Contents()))
      ensures buffers.AllFlags() == FlagsAfter(old(Snapshot()), old(buffers.AllFlags()))
    {
      hide NormPhase;
      match pc
      case Drain =>
        if currentPanPhase == lastPanPhase {
          pc := Idle;
        } else {
          displayed := if calls.pans && display.lit then displayed + [currentPanPhase] else displayed;
          PanTo(NormPhase(currentPanPhase), calls.pans);
          consumed := consumed + [currentPanPhase];
          pc := Panned;
        }
      case Panned =>
        var prevPhase := previousPanPhase;
        previousPanPhase := currentPanPhase;
        currentPanPhase := currentPanPhase + 1;
        pc := ClearOld(prevPhase);
      case ClearOld(prevPhase) =>
        if prevPhase >= 0 { ClearAndCount(prevPhase); }
        pc := Drain;
    }

    /** Lines 77-86: go to the empty phase and clear the last phase. */
    method StepSettle(calls: Calls)
      requires buffers.Valid() && buffers.AllCovered() && (pc == Idle || pc == Settle)
      modifies this, buffers.lines, buffers.dirtyColumns
      ensures Snapshot() == ThreadStep(old(Snapshot()), calls) && buffers.AllCovered()
      ensures buffers.Contents() == ContentsAfter(old(Snapshot()), old(buffers.Contents()))
      ensures buffers.AllFlags() == FlagsAfter(old(Snapshot()), old(buffers.AllFlags()))
    {
      hide NormPhase;
      if pc == Idle {
        if !display.blanked { PanTo(EMPTY_PHASE, calls.pans); }
        pc := Settle;
      } else {
        if previousPanPhase >= 0 {
          ClearAndCount(previousPanPhase);
          previousPanPhase := -1;
        }
        pc := Lock;
      }
    }

    /** Lines 97-147: wait for work, blanking the display. The buffers are out of reach. */
    method StepWait(calls: Calls)
      requires pc == Lock || pc == Wait
      modifies this
      ensures Snapshot() == ThreadStep(old(Snapshot()), calls)
    {
      if pc == Wait && (currentPanPhase != lastPanPhase || vsyncShutdownRequest || vsyncClearRequest) {
        pc := Wake;
      } else {
        if calls.blank && !display.blanked { display := Display(true, display.lit && !calls.blanks, display.slot); }
        pc := Wait;
      }
    }

    /** Lines 149-161: unblank for new work, and go to the empty phase. The counters move even if unblanking fails. */
    method StepWake(calls: Calls)
      requires pc == Wake || pc == Park
      modifies this
      ensures Snapshot() == ThreadStep(old(Snapshot()), calls)
    {
      hide NormPhase;
      if pc == Wake {
        if display.blanked && !vsyncShutdownRequest && !vsyncClearRequest {
          if calls.unblanks {
            display := Display(false, true, NormPhase(currentPanPhase));
            displayed := displayed + [currentPanPhase];
          }
          consumed := consumed + [currentPanPhase];
          previousPanPhase := currentPanPhase;
          currentPanPhase := currentPanPhase + 1;
        }
        pc := Park;
      } else {
        if !display.blanked { PanTo(EMPTY_PHASE, calls.pans); }
        pc := Clear;
      }
    }

    /** Lines 163-205: serve a clear request, which overwrites slots 0 to 2 whatever waits there, and a shutdown request. */
    method StepRequests(calls: Calls)
      requires buffers.Valid() && (pc == Clear || pc == Exit)
      modifies this, buffers.lines
      ensures Snapshot() == ThreadStep(old(Snapshot()), calls)
      ensures if old(pc) == Clear && old(vsyncClearRequest) && calls.canClear then
                buffers.Contents() == old(buffers.Contents())[0 := buffers.NoContent()][1 := buffers.NoContent()]
                                                             [2 := buffers.NoContent()]
              else buffers.Contents() == old(buffers.Contents())
      ensures buffers.AllFlags() == old(buffers.AllFlags()) && (old(buffers.AllCovered()) ==> buffers.AllCovered())
    {
      if pc == Clear {
        if vsyncClearRequest {
          if calls.canClear {
            RunInit(calls);
            buffers.ZeroInitSlots();
          }
          vsyncClearRequest := false;
        }
        pc := Exit;
      } else {
        pc := if vsyncShutdownRequest then Stopped else Drain;
      }
    }

    /** The calls to the display of an init waveform. */
    method RunInit(calls: Calls)
      modifies this`display
      ensures display == InitRun(old(display), calls)
    {
      if display.blanked && calls.unblanks { display := display.(blanked := false, lit := true); }
      PanTo(if calls.pans then EMPTY_PHASE else calls.initSlot, true);
      if !display.blanked { display := Display(true, display.lit && !calls.blanks, display.slot); }
    }

    /** The generator, assumed: it writes lines into the next phases, flagging each, and then raises the last phase. */
    method Generate(phases: nat, draw: int -> seq<Column>)
      requires buffers.Valid() && buffers.AllCovered() && lastPanPhase >= 0
      requires forall p, c | c in draw(p) :: c.at < buffers.screenWidth
      modifies this`lastPanPhase, buffers.lines, buffers.dirtyColumns
      ensures Snapshot() == Next(old(Snapshot()), Raise(phases)) && buffers.AllCovered()
    {
      var i := 0;
      while i < phases
        invariant i <= phases && buffers.AllCovered() && lastPanPhase == old(lastPanPhase)
      {
        var columns, k := draw(lastPanPhase + i), 0;
        while k < |columns|
          invariant k <= |columns| && buffers.AllCovered() && lastPanPhase == old(lastPanPhase)
        {
          assert columns[k] in columns;
          buffers.DrawColumn(lastPanPhase + i, columns[k].at, columns[k].line);
          k := k + 1;
        }
        i := i + 1;
      }
      lastPanPhase := lastPanPhase + phases;
    }

    /** One step of the thread. */
    method ThreadMoves(calls: Calls)
      requires buffers.Valid() && buffers.AllCovered()
      modifies this, buffers.lines, buffers.dirtyColumns
      ensures Snapshot() == ThreadStep(old(Snapshot()), calls) && buffers.AllCovered()
    {
      if pc == Drain || pc == Panned || pc.ClearOld? { StepDrain(calls); }
      else if pc == Idle || pc == Settle { StepSettle(calls); }
      else if pc == Lock || pc == Wait { StepWait(calls); }
      else if pc == Wake || pc == Park { StepWake(calls); }
      else if pc == Clear || pc == Exit { StepRequests(calls); }
    }

    /**
     Over every run, against a generator that draws any lines, the thread's variables are those of the machine, and the
     flags always cover the content: so every lazy clear is a full one.
     */
    method RunAll(schedule: seq<Event>, draw: int -> seq<Column>, ghost start: int)
      requires buffers.Valid() && buffers.AllCovered() && Inv(Snapshot(), start)
      requires forall p, c | c in draw(p) :: c.at < buffers.screenWidth
      modifies this, buffers.lines, buffers.dirtyColumns
      ensures Snapshot() == Run(old(Snapshot()), schedule) && buffers.AllCovered() && Inv(Snapshot(), start)
    {
      hide ThreadStep, Inv;
      var i := 0;
      while i < |schedule|
        invariant i <= |schedule| && buffers.AllCovered() && Inv(Snapshot(), start)
        invariant Run(Snapshot(), schedule[i..]) == Run(old(Snapshot()), schedule)
      {
        StepKeepsInv(Snapshot(), schedule[i], start);
        assert schedule[i..][1..] == schedule[i + 1..];
        match schedule[i] {
          case Raise(phases) => LastNonNegative(Snapshot(), start); Generate(phases, draw);
          case RequestClear => vsyncClearRequest := true;
          case RequestShutdown => vsyncShutdownRequest := true;
          case Thread(calls) => ThreadMoves(calls);
        }
        i := i + 1;
      }
    }

    lemma LastNonNegative(s: State, start: int)
      requires Inv(s, start)
      ensures s.last >= 0
    {
    }
  }
}
