/** The multitouch decoder: TouchDevice::handleEvent (libs/rMlib/Input.cpp:181-226). */
module Touch {
  import opened Geometry
  import Choice

  const MAX_NUM_SLOTS := 32

  datatype Kind = Down | Up | Move

  datatype TouchEvent = TouchEvent(kind: Kind, id: int, slot: int, location: Point, pressure: int)

  /** The kernel events the decoder tells apart; `Other` is anything else that is not a report. */
  datatype InputEvent =
    | Report
    | Slot(slot: int)
    | TrackingId(id: int)
    | PositionX(x: int)
    | PositionY(y: int)
    | Pressure(pressure: int)
    | Other

  /** A tracking id of -1 ends the contact of the current slot, any other begins one. */
  const NO_CONTACT := -1

  // ----- One event, as a function of the device state

  datatype State = State(slot: int, slots: seq<TouchEvent>, changed: set<int>)

  predicate IsSlot(k: int) { 0 <= k < MAX_NUM_SLOTS }

  /** Slot numbers are in range, as slots.at demands. */
  predicate InRange(ev: InputEvent) { ev.Slot? ==> IsSlot(ev.slot) }

  /** Slots that can be reported know their own number, and contacts not yet reported are marked as changed. */
  ghost predicate WellFormed(s: State) {
    && |s.slots| == MAX_NUM_SLOTS && IsSlot(s.slot)
    && (forall k | k in s.changed :: IsSlot(k))
    && (forall k | IsSlot(k) :: k == s.slot || k in s.changed ==> s.slots[k].slot == k)
    && (forall k | IsSlot(k) :: s.slots[k].kind != Move ==> k in s.changed)
  }

  function UpdateSlot(t: TouchEvent, ev: InputEvent): TouchEvent {
    match ev
    case Slot(slot) => t.(slot := slot)
    case TrackingId(id) => if id == NO_CONTACT then t.(kind := Up) else t.(kind := Down, id := id)
    case PositionX(x) => t.(location := t.location.(x := x))
    case PositionY(y) => t.(location := t.location.(y := y))
    case Pressure(pressure) => t.(pressure := pressure)
    case _ => t
  }

  function Next(s: State, ev: InputEvent): State
    requires |s.slots| == MAX_NUM_SLOTS && IsSlot(s.slot) && InRange(ev)
  {
    if ev.Report? then
      State(s.slot,
            seq(MAX_NUM_SLOTS, k requires 0 <= k < MAX_NUM_SLOTS =>
              if k in s.changed then s.slots[k].(kind := Move) else s.slots[k]),
            {})
    else
      var slot := if ev.Slot? then ev.slot else s.slot;
      State(slot, s.slots[slot := UpdateSlot(s.slots[slot], ev)], s.changed + {slot})
  }

  lemma NextWellFormed(s: State, ev: InputEvent)
    requires WellFormed(s) && InRange(ev)
    ensures WellFormed(Next(s, ev))
  {
  }

  /** What slot `k` reports for one event. */
  function Emitted(s: State, ev: InputEvent, k: int): seq<TouchEvent>
    requires |s.slots| == MAX_NUM_SLOTS && IsSlot(k)
  {
    if ev.Report? && k in s.changed then [s.slots[k]] else []
  }

  // ----- Contacts in the input and in the output

  datatype Contact = Begin(id: int) | End(id: int)

  function ContactOf(event: TouchEvent): seq<Contact> {
    match event.kind
    case Down => [Begin(event.id)]
    case Up => [End(event.id)]
    case Move => []
  }

  /** The contacts among the events reported for a slot. */
  function Contacts(events: seq<TouchEvent>): seq<Contact> {
    if events == [] then [] else ContactOf(events[0]) + Contacts(events[1..])
  }

  /** The slot selected once `ev` is handled. */
  function Selected(ev: InputEvent, slot: int): int { if ev.Slot? then ev.slot else slot }

  /** The contact that `ev` begins or ends in slot `k`; an end carries the id of the last begin. */
  function Asked(ev: InputEvent, slot: int, k: int, id: int): seq<Contact> {
    if !ev.TrackingId? || slot != k then [] else if ev.id == NO_CONTACT then [End(id)] else [Begin(ev.id)]
  }

  /** The contacts that a stream begins and ends in slot `k`. */
  function Requested(evs: seq<InputEvent>, slot: int, k: int, id: int): seq<Contact> {
    if evs == [] then []
    else
      var asked := Asked(evs[0], slot, k, id);
      asked + Requested(evs[1..], Selected(evs[0], slot), k, if asked == [] then id else asked[0].id)
  }

  /** Everything slot `k` reports over a stream. */
  function Reported(s: State, evs: seq<InputEvent>, k: int): seq<TouchEvent>
    requires |s.slots| == MAX_NUM_SLOTS && IsSlot(s.slot) && IsSlot(k) && forall ev | ev in evs :: InRange(ev)
    decreases |evs|
  {
    if evs == [] then [] else Emitted(s, evs[0], k) + Reported(Next(s, evs[0]), evs[1..], k)
  }

  function After(s: State, evs: seq<InputEvent>): (t: State)
    requires |s.slots| == MAX_NUM_SLOTS && IsSlot(s.slot) && forall ev | ev in evs :: InRange(ev)
    ensures |t.slots| == MAX_NUM_SLOTS && IsSlot(t.slot)
    decreases |evs|
  {
    if evs == [] then s else After(Next(s, evs[0]), evs[1..])
  }

  /** The contact of slot `k` that the next report will carry. */
  function Unreported(s: State, k: int): seq<Contact>
    requires |s.slots| == MAX_NUM_SLOTS && IsSlot(k)
  {
    ContactOf(s.slots[k])
  }

  /** Slot `k` has at most one tracking-id event between reports; `seen` tells whether the current frame has had one. */
  predicate OnePerFrame(evs: seq<InputEvent>, slot: int, k: int, seen: bool) {
    evs != [] ==>
      var tracking := evs[0].TrackingId? && slot == k;
      !(tracking && seen) && OnePerFrame(evs[1..], Selected(evs[0], slot), k, tracking || (seen && !evs[0].Report?))
  }

  lemma ContactsConcat(a: seq<TouchEvent>, b: seq<TouchEvent>)
    ensures Contacts(a + b) == Contacts(a) + Contacts(b)
  {
    if a == [] {
      assert a + b == b;
    } else {
      assert (a + b)[1..] == a[1..] + b;
      ContactsConcat(a[1..], b);
    }
  }

  /** One event either reports what was unreported, or leaves it, or puts a newly requested contact in its place. */
  lemma OneEvent(s: State, ev: InputEvent, k: int)
    requires WellFormed(s) && InRange(ev) && IsSlot(k)
    ensures Next(s, ev).slot == Selected(ev, s.slot)
    ensures var (t, asked) := (Next(s, ev), Asked(ev, s.slot, k, s.slots[k].id));
            if asked == [] then
              && t.slots[k].id == s.slots[k].id
              && Unreported(s, k) == Contacts(Emitted(s, ev, k)) + Unreported(t, k)
            else t.slots[k].id == asked[0].id && Emitted(s, ev, k) == [] && Unreported(t, k) == asked
    ensures ev.Report? ==> Unreported(Next(s, ev), k) == []
    ensures !ev.Report? && Unreported(s, k) != [] ==> Unreported(Next(s, ev), k) != []
  {
    assert Contacts([s.slots[k]]) == ContactOf(s.slots[k]) + Contacts([]);
  }

  /** The induction step of Faithful, on the contacts alone. */
  lemma Extend(before: seq<Contact>, asked: seq<Contact>, now: seq<Contact>, mid: seq<Contact>,
               later: seq<Contact>, end: seq<Contact>, want: seq<Contact>)
    requires if asked == [] then before == now + mid else now == [] && mid == asked
    ensures var (got, all) := ((now + later) + end, before + (asked + want));
            && (|later + end| <= |mid + want| ==> |got| <= |all|)
            && (|later + end| < |mid + want| ==> |got| < |all|)
            && (|later + end| <= |mid + want| && asked != [] && before != [] ==> |got| < |all|)
            && (later + end == mid + want && (asked == [] || before == []) ==> got == all)
  {
    assert (now + later) + end == now + (later + end);
    assert now + (mid + want) == (now + mid) + want;
    if asked == [] { assert asked + want == want; }
  }

  /**
   The number of contacts reported never exceeds the number requested, and the two sequences are equal, in order and
   with matching ids, exactly when no frame has two tracking-id events for the slot.
   */
  lemma {:induction false} Faithful(s: State, evs: seq<InputEvent>, k: int)
    requires WellFormed(s) && IsSlot(k) && forall ev | ev in evs :: InRange(ev)
    ensures WellFormed(After(s, evs))
    ensures var (got, want) := (Contacts(Reported(s, evs, k)) + Unreported(After(s, evs), k),
                                Unreported(s, k) + Requested(evs, s.slot, k, s.slots[k].id));
            && |got| <= |want|
            && (OnePerFrame(evs, s.slot, k, Unreported(s, k) != []) ==> got == want)
            && (!OnePerFrame(evs, s.slot, k, Unreported(s, k) != []) ==> |got| < |want|)
    decreases |evs|
  {
    if evs != [] {
      NextWellFormed(s, evs[0]);
      OneEvent(s, evs[0], k);
      hide Next, Unreported, Emitted, Contacts;
      var t := Next(s, evs[0]);
      Faithful(t, evs[1..], k);
      ContactsConcat(Emitted(s, evs[0], k), Reported(t, evs[1..], k));
      Extend(Unreported(s, k), Asked(evs[0], s.slot, k, s.slots[k].id), Contacts(Emitted(s, evs[0], k)), Unreported(t, k),
             Contacts(Reported(t, evs[1..], k)), Unreported(After(t, evs[1..]), k),
             Requested(evs[1..], t.slot, k, t.slots[k].id));
    }
  }

  /** No contact is waiting to be reported. */
  ghost predicate Quiet(s: State) {
    WellFormed(s) && forall k | IsSlot(k) :: s.slots[k].kind == Move
  }

  lemma {:induction false} LastReportIsQuiet(s: State, evs: seq<InputEvent>, k: int)
    requires WellFormed(s) && IsSlot(k) && (forall ev | ev in evs :: InRange(ev))
    requires evs != [] && evs[|evs| - 1] == Report
    ensures Unreported(After(s, evs), k) == []
    decreases |evs|
  {
    NextWellFormed(s, evs[0]);
    if |evs| == 1 {
      OneEvent(s, evs[0], k);
    } else {
      LastReportIsQuiet(Next(s, evs[0]), evs[1..], k);
    }
  }

  /** For whole frames: the downs and ups reported are the begins and ends of the input iff no frame has two of them. */
  lemma WholeFrames(s: State, evs: seq<InputEvent>, k: int)
    requires Quiet(s) && IsSlot(k) && (forall ev | ev in evs :: InRange(ev))
    requires evs != [] && evs[|evs| - 1] == Report
    ensures Contacts(Reported(s, evs, k)) == Requested(evs, s.slot, k, s.slots[k].id)
       <==> OnePerFrame(evs, s.slot, k, false)
  {
    LastReportIsQuiet(s, evs, k);
    Faithful(s, evs, k);
    assert Contacts(Reported(s, evs, k)) + [] == Contacts(Reported(s, evs, k));
    assert [] + Requested(evs, s.slot, k, s.slots[k].id) == Requested(evs, s.slot, k, s.slots[k].id);
  }

  /** The smallest failing frame: a contact that begins and ends within it is reported as an end only. */
  lemma TapWithinAFrame(s: State, id: int)
    requires Quiet(s) && id != NO_CONTACT
    ensures var frame := [TrackingId(id), TrackingId(NO_CONTACT), Report];
            && Requested(frame, s.slot, s.slot, s.slots[s.slot].id) == [Begin(id), End(id)]
            && Contacts(Reported(s, frame, s.slot)) == [End(id)]
  {
    var frame := [TrackingId(id), TrackingId(NO_CONTACT), Report];
    var s1 := Next(s, frame[0]);
    var s2 := Next(s1, frame[1]);
    assert frame[1..] == [TrackingId(NO_CONTACT), Report] && frame[1..][1..] == [Report];
    assert Emitted(s2, Report, s.slot) == [s2.slots[s.slot]];
    assert [Report][1..] == [];
    assert Reported(s2, [Report], s.slot) == [s2.slots[s.slot]];
    assert Reported(s1, frame[1..], s.slot) == [s2.slots[s.slot]];
    assert Reported(s, frame, s.slot) == [s2.slots[s.slot]];
    assert Requested([Report], s.slot, s.slot, id) == [];
    assert Requested(frame[1..], s.slot, s.slot, id) == [End(id)];
  }

  /** The last id seen in a sequence of contacts, starting from `id`. */
  function LastId(contacts: seq<Contact>, id: int): int
  {
    if contacts == [] then id else LastId(contacts[1..], contacts[0].id)
  }

  /** Every end carries the id of the contact before it, so in an alternating stream that of its matching begin. */
  lemma {:induction false} MatchingIds(evs: seq<InputEvent>, slot: int, k: int, id: int, j: nat)
    requires j < |Requested(evs, slot, k, id)| && Requested(evs, slot, k, id)[j].End?
    ensures Requested(evs, slot, k, id)[j].id == if j == 0 then id else Requested(evs, slot, k, id)[j - 1].id
  {
    var asked := Asked(evs[0], slot, k, id);
    if |asked| <= j {
      MatchingIds(evs[1..], Selected(evs[0], slot), k, if asked == [] then id else asked[0].id, j - |asked|);
    }
  }

  // ----- Coordinates and pressure

  datatype Quantity = X | Y | P

  function Measured(t: TouchEvent, q: Quantity): int {
    match q
    case X => t.location.x
    case Y => t.location.y
    case P => t.pressure
  }

  predicate Gives(ev: InputEvent, q: Quantity) {
    match q
    case X => ev.PositionX?
    case Y => ev.PositionY?
    case P => ev.Pressure?
  }

  function Value(ev: InputEvent, q: Quantity): int
    requires Gives(ev, q)
  {
    match q
    case X => ev.x
    case Y => ev.y
    case P => ev.pressure
  }

  /** The slot that is selected while the event at `j` is handled. */
  function SlotAt(evs: seq<InputEvent>, slot: int, j: nat): int
    requires j < |evs|
  {
    var before := if j == 0 then slot else SlotAt(evs, slot, j - 1);
    if evs[j].Slot? then evs[j].slot else before
  }

  lemma {:induction false} SlotAtLater(evs: seq<InputEvent>, slot: int, j: nat)
    requires 0 < j < |evs|
    ensures SlotAt(evs, slot, j) == SlotAt(evs[1..], Selected(evs[0], slot), j - 1)
  {
    if j > 1 { SlotAtLater(evs, slot, j - 1); }
  }

  /** No event from `j` on gives slot `k` a value for `q`. */
  ghost predicate NoneFrom(evs: seq<InputEvent>, slot: int, k: int, q: Quantity, j: nat) {
    forall i | j <= i < |evs| && SlotAt(evs, slot, i) == k :: !Gives(evs[i], q)
  }

  lemma OneMeasure(s: State, ev: InputEvent, k: int, q: Quantity)
    requires |s.slots| == MAX_NUM_SLOTS && IsSlot(s.slot) && IsSlot(k) && InRange(ev)
    ensures var t := Next(s, ev);
            && t.slot == Selected(ev, s.slot)
            && Measured(t.slots[k], q) == if Gives(ev, q) && s.slot == k then Value(ev, q) else Measured(s.slots[k], q)
  {
  }

  /** A slot keeps what it measures over events that do not give it a value. */
  lemma {:induction false} Unmeasured(s: State, evs: seq<InputEvent>, k: int, q: Quantity)
    requires |s.slots| == MAX_NUM_SLOTS && IsSlot(s.slot) && IsSlot(k) && (forall ev | ev in evs :: InRange(ev))
    requires NoneFrom(evs, s.slot, k, q, 0)
    ensures Measured(After(s, evs).slots[k], q) == Measured(s.slots[k], q)
    decreases |evs|
  {
    if evs != [] {
      var t := Next(s, evs[0]);
      OneMeasure(s, evs[0], k, q);
      assert SlotAt(evs, s.slot, 0) == Selected(evs[0], s.slot);
      LaterNone(evs, s.slot, k, q, 0);
      hide Next, Measured;
      Unmeasured(t, evs[1..], k, q);
    }
  }

  lemma LaterNone(evs: seq<InputEvent>, slot: int, k: int, q: Quantity, j: nat)
    requires evs != [] && NoneFrom(evs, slot, k, q, if j == 0 then 1 else j)
    ensures NoneFrom(evs[1..], Selected(evs[0], slot), k, q, if j == 0 then 0 else j - 1)
  {
    forall i | 0 < i < |evs| ensures SlotAt(evs, slot, i) == SlotAt(evs[1..], Selected(evs[0], slot), i - 1) {
      SlotAtLater(evs, slot, i);
    }
  }

  /** It measures the last value that an event gave it, whatever other events come between. */
  lemma {:induction false} LastMeasured(s: State, evs: seq<InputEvent>, k: int, q: Quantity, j: nat)
    requires |s.slots| == MAX_NUM_SLOTS && IsSlot(s.slot) && IsSlot(k) && (forall ev | ev in evs :: InRange(ev))
    requires j < |evs| && SlotAt(evs, s.slot, j) == k && Gives(evs[j], q) && NoneFrom(evs, s.slot, k, q, j + 1)
    ensures Measured(After(s, evs).slots[k], q) == Value(evs[j], q)
    decreases |evs|
  {
    var t := Next(s, evs[0]);
    OneMeasure(s, evs[0], k, q);
    LaterNone(evs, s.slot, k, q, j + 1);
    hide Next, Measured;
    if j == 0 {
      Unmeasured(t, evs[1..], k, q);
    } else {
      SlotAtLater(evs, s.slot, j);
      LastMeasured(t, evs[1..], k, q, j - 1);
    }
  }

  /** Some event is handled with slot `k` selected. */
  ghost predicate Concerns(evs: seq<InputEvent>, slot: int, k: int) {
    exists j | 0 <= j < |evs| :: SlotAt(evs, slot, j) == k
  }

  lemma ConcernsSplit(evs: seq<InputEvent>, slot: int, k: int)
    requires evs != []
    ensures Concerns(evs, slot, k) <==> Selected(evs[0], slot) == k || Concerns(evs[1..], Selected(evs[0], slot), k)
  {
    assert SlotAt(evs, slot, 0) == Selected(evs[0], slot);
    forall j | 0 < j < |evs| ensures SlotAt(evs, slot, j) == SlotAt(evs[1..], Selected(evs[0], slot), j - 1) {
      SlotAtLater(evs, slot, j);
    }
    if j :| 0 <= j < |evs[1..]| && SlotAt(evs[1..], Selected(evs[0], slot), j) == k {
      assert SlotAt(evs, slot, j + 1) == k;
    }
  }

  /** A report takes exactly the slots selected since the last one, each once and with all it holds. */
  lemma {:induction false} ReportedIff(s: State, evs: seq<InputEvent>, k: int)
    requires |s.slots| == MAX_NUM_SLOTS && IsSlot(s.slot) && IsSlot(k) && (forall ev | ev in evs :: InRange(ev))
    requires forall ev | ev in evs :: ev != Report
    ensures var t := After(s, evs);
            Emitted(t, Report, k) == if k in s.changed || Concerns(evs, s.slot, k) then [t.slots[k]] else []
    decreases |evs|
  {
    if evs != [] {
      var t := Next(s, evs[0]);
      assert evs[0] in evs && forall ev | ev in evs[1..] :: ev in evs;
      ConcernsSplit(evs, s.slot, k);
      hide Concerns;
      ReportedIff(t, evs[1..], k);
    }
  }

  // ----- The device

  class TouchDevice {
    const transform: Point -> Point
    var slot: int
    const slots: array<TouchEvent>
    var changedSlots: set<int>

    ghost function Snapshot(): State
      reads this, slots
    {
      State(slot, slots[..], changedSlots)
    }

    ghost predicate Valid()
      reads this, slots
    {
      WellFormed(Snapshot())
    }

    constructor (transform: Point -> Point)
      ensures Valid() && Quiet(Snapshot()) && slot == 0 && this.transform == transform && fresh(slots)
    {
      this.transform := transform;
      slot, changedSlots := 0, {};
      slots := new TouchEvent[MAX_NUM_SLOTS](_ => TouchEvent(Move, 0, 0, Point(0, 0), 0));
    }

    function Transformed(t: TouchEvent): TouchEvent { t.(location := transform(t.location)) }

    /** The reports of a slot, in order. */
    static function OfSlot(events: seq<TouchEvent>, k: int): seq<TouchEvent> {
      if events == [] then []
      else (if events[0].slot == k then [events[0]] else []) + OfSlot(events[1..], k)
    }

    static lemma OfSlotSnoc(events: seq<TouchEvent>, t: TouchEvent, k: int)
      ensures OfSlot(events + [t], k) == OfSlot(events, k) + if t.slot == k then [t] else []
    {
      if events != [] {
        assert (events + [t])[1..] == events[1..] + [t];
        OfSlotSnoc(events[1..], t, k);
      } else {
        assert [t][1..] == [];
      }
    }

    static lemma AppendReport(events: seq<TouchEvent>, report: TouchEvent)
      ensures forall k :: OfSlot(events + [report], k) == OfSlot(events, k) + if report.slot == k then [report] else []
    {
      forall k ensures OfSlot(events + [report], k) == OfSlot(events, k) + if report.slot == k then [report] else [] {
        OfSlotSnoc(events, report, k);
      }
    }

    function TransformedAll(events: seq<TouchEvent>): seq<TouchEvent> {
      seq(|events|, i requires 0 <= i < |events| => Transformed(events[i]))
    }

    /** The reports may come in any order of the slots, since the set of changed slots has none. */
    method HandleEvent(ev: InputEvent) returns (events: seq<TouchEvent>)
      requires Valid() && InRange(ev)
      modifies this, slots
      ensures Valid() && Snapshot() == Next(old(Snapshot()), ev)
      ensures forall k | IsSlot(k) :: OfSlot(events, k) == TransformedAll(Emitted(old(Snapshot()), ev, k))
      ensures forall k | IsSlot(k) && ev == Report && k in old(changedSlots) ::
                OfSlot(events, k) == [old(slots[k]).(location := transform(old(slots[k]).location))]
    {
      NextWellFormed(Snapshot(), ev);
      if ev.Report? {
        events := ReportChanged();
        changedSlots := {};
        return;
      }
      if ev.Slot? { slot := ev.slot; }
      changedSlots := changedSlots + {slot};
      slots[slot] := UpdateSlot(slots[slot], ev);
      return [];
    }

    method ReportChanged() returns (events: seq<TouchEvent>)
      requires Valid()
      modifies slots
      ensures slots[..] == Next(old(Snapshot()), Report).slots
      ensures forall k | IsSlot(k) :: OfSlot(events, k) == TransformedAll(Emitted(old(Snapshot()), Report, k))
    {
      ghost var before := Snapshot();
      events := [];
      var todo := changedSlots;
      AllPending(before, events);
      hide OfSlot, Transformed;
      while todo != {}
        invariant todo <= changedSlots
        invariant Progress(before, slots[..], events, todo)
        decreases todo
      {
        var slotIdx := Choice.AnyOf(todo);
        var report := Transformed(slots[slotIdx]);
        ReportOne(before, slots[..], events, todo, slotIdx);
        events := events + [report];
        slots[slotIdx] := slots[slotIdx].(kind := Move);
        todo := todo - {slotIdx};
      }
    }

    /** Changed slots outside `todo` are reported and reset, all others are as before. */
    ghost predicate Progress(before: State, now: seq<TouchEvent>, events: seq<TouchEvent>, todo: set<int>) {
      && WellFormed(before) && |now| == MAX_NUM_SLOTS
      && forall k | IsSlot(k) :: SlotDone(before, now[k], OfSlot(events, k), k, k in before.changed && k !in todo)
    }

    /** One slot is reported and reset, or as before. */
    ghost predicate SlotDone(before: State, now: TouchEvent, reports: seq<TouchEvent>, k: int, done: bool)
      requires |before.slots| == MAX_NUM_SLOTS && IsSlot(k)
    {
      && now == (if done then before.slots[k].(kind := Move) else before.slots[k])
      && reports == if done then [Transformed(before.slots[k])] else []
    }

    lemma AllPending(before: State, events: seq<TouchEvent>)
      requires WellFormed(before) && events == []
      ensures Progress(before, before.slots, events, before.changed)
    {
    }

    lemma ReportOne(before: State, now: seq<TouchEvent>, events: seq<TouchEvent>, todo: set<int>, k: int)
      requires Progress(before, now, events, todo) && todo <= before.changed && k in todo
      ensures Progress(before, now[k := now[k].(kind := Move)], events + [Transformed(now[k])], todo - {k})
    {
      AppendReport(events, Transformed(now[k]));
      var (after, reported) := (now[k := now[k].(kind := Move)], events + [Transformed(now[k])]);
      assert SlotDone(before, now[k], OfSlot(events, k), k, false);
      hide OfSlot, Transformed;
      forall j | IsSlot(j)
        ensures SlotDone(before, after[j], OfSlot(reported, j), j, j in before.changed && j !in todo - {k})
      {
        assert SlotDone(before, now[j], OfSlot(events, j), j, j in before.changed && j !in todo);
        OtherSlot(before, now, after, OfSlot(events, j), OfSlot(reported, j), k, j);
      }
    }

    /** The report of slot `k` concerns no other slot. */
    lemma OtherSlot(before: State, now: seq<TouchEvent>, after: seq<TouchEvent>, events: seq<TouchEvent>,
                    reported: seq<TouchEvent>, k: int, j: int)
      requires WellFormed(before) && |now| == MAX_NUM_SLOTS && IsSlot(k) && IsSlot(j) && k in before.changed
      requires after == now[k := now[k].(kind := Move)] && now[k] == before.slots[k]
      requires reported == events + if Transformed(now[k]).slot == j then [Transformed(now[k])] else []
      ensures j != k ==> after[j] == now[j] && reported == events
      ensures j == k && events == [] ==> SlotDone(before, after[k], reported, k, true)
    {
    }
  }
}
