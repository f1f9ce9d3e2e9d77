/**
 * Planned and running equipment time behind the availability card
 * (dashboard-availability.service.ts, with the holiday rule of downtime-summary-planned.ts).
 *
 * Rows the queries return are inputs. Instants are epoch milliseconds; shift windows arrive in
 * microseconds and are cut to milliseconds by truncating division, as BigInt division does.
 */
module Availability {
  import opened Results
  import opened Intervals
  import opened Rates

  datatype Session = Session(id: int, equipment: Option<int>, line: Option<int>, startedAt: int, endedAt: Option<int>)

  datatype LoggedEvent = LoggedEvent(session: int, event: SessionEvent)

  datatype PlannedStop = PlannedStop(equipment: Option<int>, line: Option<int>, span: Span)

  datatype Slot = Slot(
    equipment: int,
    calendarActive: Option<bool>,
    dayType: Option<string>,
    shiftId: Option<string>,
    shiftValid: Option<bool>,
    shiftStartUs: Option<int>,
    shiftEndUs: Option<int>,
    partialValid: Option<bool>,
    partialStartUs: Option<int>,
    partialEndUs: Option<int>)

  datatype Plant = Plant(
    measured: Span,
    sessions: seq<Session>,
    events: seq<LoggedEvent>,
    slots: seq<Slot>,
    stops: seq<PlannedStop>)

  datatype Scoped = Scoped(equipment: int, line: Option<int>)

  datatype Figures = Figures(plannedMs: Option<nat>, actualMs: nat, equipmentCount: nat, excludedSessionCount: nat)

  // ----- work calendar slots

  predicate KnownDayType(code: string) {
    code == "WORKING" || code == "HOLIDAY" || code == "PARTIAL"
  }

  predicate SlotResolved(slot: Slot) {
    && slot.calendarActive == Some(true)
    && slot.dayType.Some? && KnownDayType(slot.dayType.value)
    && slot.shiftId.Some?
    && slot.shiftValid == Some(true)
    && slot.shiftStartUs.Some? && slot.shiftEndUs.Some?
    && (slot.dayType.value == "PARTIAL" ==>
          slot.partialValid == Some(true) && slot.partialStartUs.Some? && slot.partialEndUs.Some?)
  }

  /** Off-duty stretches of a shift in microseconds; None when the calendar cannot be read. */
  function Holidays(slot: Slot): (r: Option<seq<Span>>)
    ensures r.Some? <==> SlotResolved(slot)
  {
    if slot.calendarActive != Some(true) || slot.dayType == None || !KnownDayType(slot.dayType.value) ||
       slot.shiftId == None || slot.shiftValid != Some(true) || slot.shiftStartUs == None || slot.shiftEndUs == None
    then None
    else if slot.dayType.value == "WORKING" then Some([])
    else if slot.dayType.value == "HOLIDAY" then Some([Span(slot.shiftStartUs.value, slot.shiftEndUs.value)])
    else if slot.partialValid != Some(true) || slot.partialStartUs == None || slot.partialEndUs == None then None
    else Some(NonEmpty([
        Span(slot.shiftStartUs.value, Min(slot.partialStartUs.value, slot.shiftEndUs.value)),
        Span(Max(slot.partialEndUs.value, slot.shiftStartUs.value), slot.shiftEndUs.value)]))
  }

  /**
   * A slot can be read exactly when calendar, day type, shift and partial hours can; on a holiday the whole
   * shift is off duty, on a partial day the part of it outside the partial hours.
   */
  lemma HolidaysAre(slot: Slot, x: int)
    ensures Holidays(slot).Some? <==> SlotResolved(slot)
    ensures SlotResolved(slot) ==>
              (x in Points(Holidays(slot).value) <==>
                && slot.shiftStartUs.value <= x < slot.shiftEndUs.value
                && (slot.dayType.value == "HOLIDAY"
                    || (slot.dayType.value == "PARTIAL"
                        && !(slot.partialStartUs.value <= x < slot.partialEndUs.value))))
  {
    if SlotResolved(slot) {
      var spans := Holidays(slot).value;
      PointsMember(spans, x);
      if slot.dayType.value == "PARTIAL" {
        var morning := Span(slot.shiftStartUs.value, Min(slot.partialStartUs.value, slot.shiftEndUs.value));
        var evening := Span(Max(slot.partialEndUs.value, slot.shiftStartUs.value), slot.shiftEndUs.value);
        assert spans == NonEmpty([morning, evening]);
        assert morning in [morning, evening] && evening in [morning, evening];
      }
    }
  }

  function ToMs(span: Span): Span {
    Span(TruncDiv(span.start, 1000), TruncDiv(span.end, 1000))
  }

  // ----- what is planned and what is running, as sets of instants

  ghost function MsPoints(spans: seq<Span>): set<int> {
    if spans == [] then {} else MsPoints(spans[..|spans| - 1]) + Instants(ToMs(spans[|spans| - 1]))
  }

  ghost predicate SlotsResolved(slots: seq<Slot>, equipment: int) {
    forall i :: 0 <= i < |slots| && slots[i].equipment == equipment ==> SlotResolved(slots[i])
  }

  ghost function ShiftPoints(slots: seq<Slot>, equipment: int): set<int>
    requires SlotsResolved(slots, equipment)
  {
    if slots == [] then {} else
      var rest, slot := slots[..|slots| - 1], slots[|slots| - 1];
      ShiftPoints(rest, equipment) +
      if slot.equipment == equipment then Instants(ToMs(Span(slot.shiftStartUs.value, slot.shiftEndUs.value))) else {}
  }

  ghost function HolidayPoints(slots: seq<Slot>, equipment: int): set<int>
    requires SlotsResolved(slots, equipment)
  {
    if slots == [] then {} else
      var rest, slot := slots[..|slots| - 1], slots[|slots| - 1];
      HolidayPoints(rest, equipment) +
      if slot.equipment == equipment then MsPoints(Holidays(slot).value) else {}
  }

  /** A planned stop names the equipment, or else its production line. */
  predicate StopApplies(stop: PlannedStop, item: Scoped) {
    if stop.equipment.Some? then stop.equipment.value == item.equipment
    else stop.line.Some? && stop.line == item.line
  }

  ghost function StopPoints(stops: seq<PlannedStop>, item: Scoped): set<int> {
    if stops == [] then {} else
      var rest, stop := stops[..|stops| - 1], stops[|stops| - 1];
      StopPoints(rest, item) + if StopApplies(stop, item) then Instants(stop.span) else {}
  }

  /** In a shift, inside the measured window, not on holiday, not in a planned stop. */
  ghost function PlannedPoints(plant: Plant, item: Scoped): set<int>
    requires SlotsResolved(plant.slots, item.equipment)
  {
    ShiftPoints(plant.slots, item.equipment) * Instants(plant.measured)
    - (StopPoints(plant.stops, item) + HolidayPoints(plant.slots, item.equipment))
  }

  function EventsOf(events: seq<LoggedEvent>, session: int): seq<SessionEvent> {
    if events == [] then []
    else (if events[0].session == session then [events[0].event] else []) + EventsOf(events[1..], session)
  }

  function SessionEnd(session: Session, asOf: int): int {
    if session.endedAt.Some? then session.endedAt.value else asOf
  }

  ghost function SessionPoints(session: Session, events: seq<LoggedEvent>, asOf: int): set<int> {
    set x | x in Instants(Span(session.startedAt, SessionEnd(session, asOf)))
            && !StoppedAt(EventsOf(events, session.id), x)
  }

  /** The equipment is running at x when some session of it is, stopped stretches excepted. */
  ghost function RunningPoints(sessions: seq<Session>, events: seq<LoggedEvent>, equipment: int, asOf: int): set<int> {
    if sessions == [] then {} else
      var rest, session := sessions[..|sessions| - 1], sessions[|sessions| - 1];
      RunningPoints(rest, events, equipment, asOf) +
      if session.equipment == Some(equipment) then SessionPoints(session, events, asOf) else {}
  }

  // ----- the equipment in scope

  /** Each equipment with a session, once, in order of first appearance. */
  function EquipmentKeys(sessions: seq<Session>): (keys: seq<int>) {
    if sessions == [] then [] else
      var keys, last := EquipmentKeys(sessions[..|sessions| - 1]), sessions[|sessions| - 1];
      if last.equipment == None || last.equipment.value in keys then keys else keys + [last.equipment.value]
  }

  function LineOf(sessions: seq<Session>, equipment: int): Option<int> {
    if sessions == [] then None
    else if sessions[|sessions| - 1].equipment == Some(equipment) then sessions[|sessions| - 1].line
    else LineOf(sessions[..|sessions| - 1], equipment)
  }

  function IndexOf(keys: seq<int>, key: int): (i: nat)
    requires key in keys
    ensures i < |keys| && keys[i] == key
  {
    if keys[0] == key then 0 else 1 + IndexOf(keys[1..], key)
  }

  lemma {:induction false} KeysAreTheEquipment(sessions: seq<Session>)
    ensures forall i, j :: 0 <= i < j < |EquipmentKeys(sessions)| ==>
              EquipmentKeys(sessions)[i] != EquipmentKeys(sessions)[j]
    ensures forall e :: e in EquipmentKeys(sessions) <==> exists s :: s in sessions && s.equipment == Some(e)
  {
    if sessions != [] {
      var rest, last := sessions[..|sessions| - 1], sessions[|sessions| - 1];
      KeysAreTheEquipment(rest);
      assert sessions == rest + [last];
      assert last in sessions;
    }
  }

  ghost function ScopeOf(sessions: seq<Session>): seq<Scoped> {
    var keys := EquipmentKeys(sessions);
    seq(|keys|, i requires 0 <= i < |keys| => Scoped(keys[i], LineOf(sessions, keys[i])))
  }

  method ScopeEquipment(sessions: seq<Session>) returns (items: seq<Scoped>)
    ensures items == ScopeOf(sessions)
  {
    items := [];
    var keys: seq<int> := [];
    for k := 0 to |sessions|
      invariant keys == EquipmentKeys(sessions[..k])
      invariant items == ScopeOf(sessions[..k])
    {
      var row := sessions[k];
      assert sessions[..k + 1][..k] == sessions[..k];
      KeysAreTheEquipment(sessions[..k]);
      if row.equipment == None {
        continue;
      }
      var item := Scoped(row.equipment.value, row.line);
      if item.equipment in keys {
        items := items[IndexOf(keys, item.equipment) := item];
      } else {
        keys := keys + [item.equipment];
        items := items + [item];
      }
    }
    assert sessions[..|sessions|] == sessions;
  }

  // ----- planned time

  method ClipAll(spans: seq<Span>, range: Span) returns (r: seq<Span>)
    ensures Points(r) == Points(spans) * Instants(range)
  {
    r := [];
    for k := 0 to |spans|
      invariant Points(r) == Points(spans[..k]) * Instants(range)
    {
      assert spans[..k + 1] == spans[..k] + [spans[k]];
      PointsPush(spans[..k], spans[k]);
      var piece := Clip(spans[k], range);
      if piece.Some? {
        PointsPush(r, piece.value);
        r := r + [piece.value];
      }
    }
    assert spans[..|spans|] == spans;
  }

  method StopSpans(stops: seq<PlannedStop>, item: Scoped) returns (spans: seq<Span>)
    ensures Points(spans) == StopPoints(stops, item)
  {
    spans := [];
    for k := 0 to |stops|
      invariant Points(spans) == StopPoints(stops[..k], item)
    {
      assert stops[..k + 1][..k] == stops[..k];
      if StopApplies(stops[k], item) {
        PointsPush(spans, stops[k].span);
        spans := spans + [stops[k].span];
      }
    }
    assert stops[..|stops|] == stops;
  }

  method AppendMs(cuts: seq<Span>, spans: seq<Span>) returns (r: seq<Span>)
    ensures Points(r) == Points(cuts) + MsPoints(spans)
  {
    r := cuts;
    for k := 0 to |spans|
      invariant Points(r) == Points(cuts) + MsPoints(spans[..k])
    {
      assert spans[..k + 1][..k] == spans[..k];
      PointsPush(r, ToMs(spans[k]));
      r := r + [ToMs(spans[k])];
    }
    assert spans[..|spans|] == spans;
  }

  lemma NextSlot(slots: seq<Slot>, k: nat, equipment: int)
    requires k < |slots| && SlotsResolved(slots[..k], equipment)
    ensures SlotsResolved(slots[..k + 1], equipment) <==> (slots[k].equipment == equipment ==> SlotResolved(slots[k]))
    ensures SlotsResolved(slots[..k + 1], equipment) ==>
              && ShiftPoints(slots[..k + 1], equipment) == ShiftPoints(slots[..k], equipment)
                 + (if slots[k].equipment != equipment then {}
                    else Instants(ToMs(Span(slots[k].shiftStartUs.value, slots[k].shiftEndUs.value))))
              && HolidayPoints(slots[..k + 1], equipment) == HolidayPoints(slots[..k], equipment)
                 + (if slots[k].equipment == equipment then MsPoints(Holidays(slots[k]).value) else {})
  {
    hide SlotResolved;
    var next := slots[..k + 1];
    assert next[..k] == slots[..k] && next[k] == slots[k];
  }

  lemma Unresolved(slots: seq<Slot>, k: nat, equipment: int)
    requires k < |slots| && slots[k].equipment == equipment && !SlotResolved(slots[k])
    ensures !SlotsResolved(slots, equipment)
  {
  }

  /** The shifts of one equipment and everything cut from them; None at the first unreadable slot. */
  method ShiftsAndCuts(slots: seq<Slot>, item: Scoped, stops: seq<Span>) returns (r: Option<(seq<Span>, seq<Span>)>)
    ensures r.Some? <==> SlotsResolved(slots, item.equipment)
    ensures r.Some? ==> Points(r.value.0) == ShiftPoints(slots, item.equipment)
    ensures r.Some? ==> Points(r.value.1) == Points(stops) + HolidayPoints(slots, item.equipment)
  {
    var shifts: seq<Span>, cuts := [], stops;
    for k := 0 to |slots|
      invariant SlotsResolved(slots[..k], item.equipment)
      invariant Points(shifts) == ShiftPoints(slots[..k], item.equipment)
      invariant Points(cuts) == Points(stops) + HolidayPoints(slots[..k], item.equipment)
    {
      hide SlotsResolved, ShiftPoints, HolidayPoints, MsPoints, Instants, Points, ToMs, Holidays;
      var slot := slots[k];
      NextSlot(slots, k, item.equipment);
      if slot.equipment == item.equipment {
        var holidays := Holidays(slot);
        if holidays == None || slot.shiftStartUs == None || slot.shiftEndUs == None {
          Unresolved(slots, k, item.equipment);
          return None;
        }
        var shift := ToMs(Span(slot.shiftStartUs.value, slot.shiftEndUs.value));
        PointsPush(shifts, shift);
        shifts := shifts + [shift];
        cuts := AppendMs(cuts, holidays.value);
      }
    }
    assert slots[..|slots|] == slots;
    r := Some((shifts, cuts));
  }

  ghost predicate AllResolved(plant: Plant, items: seq<Scoped>) {
    forall i :: 0 <= i < |items| ==> SlotsResolved(plant.slots, items[i].equipment)
  }

  ghost predicate PlannedFor(plant: Plant, items: seq<Scoped>, planned: map<int, seq<Span>>)
    requires AllResolved(plant, items)
  {
    forall i :: 0 <= i < |items| ==>
      && items[i].equipment in planned
      && Normal(planned[items[i].equipment])
      && Points(planned[items[i].equipment]) == PlannedPoints(plant, items[i])
  }

  predicate DistinctScope(items: seq<Scoped>) {
    forall i, j :: 0 <= i < j < |items| ==> items[i].equipment != items[j].equipment
  }

  /** The planned time of one equipment; None when a slot of it cannot be read. */
  method PlannedOf(plant: Plant, item: Scoped) returns (r: Option<seq<Span>>)
    ensures r.Some? <==> SlotsResolved(plant.slots, item.equipment)
    ensures r.Some? ==> Normal(r.value) && Points(r.value) == PlannedPoints(plant, item)
  {
    hide Points, Normal, ShiftPoints, HolidayPoints, StopPoints, Instants, SlotsResolved;
    var stops := StopSpans(plant.stops, item);
    var parts := ShiftsAndCuts(plant.slots, item, stops);
    if parts == None {
      return None;
    }
    var inDay := ClipAll(parts.value.0, plant.measured);
    var kept := Subtract(inDay, parts.value.1);
    r := Some(kept);
  }

  method PlannedTime(plant: Plant, items: seq<Scoped>) returns (r: Option<map<int, seq<Span>>>)
    requires DistinctScope(items)
    ensures r.Some? <==> AllResolved(plant, items)
    ensures r.Some? ==> PlannedFor(plant, items, r.value)
  {
    hide Points, Normal, PlannedPoints, SlotsResolved;
    var planned: map<int, seq<Span>> := map[];
    for k := 0 to |items|
      invariant AllResolved(plant, items[..k])
      invariant PlannedFor(plant, items[..k], planned)
    {
      var item := items[k];
      var kept := PlannedOf(plant, item);
      if kept == None {
        return None;
      }
      planned := planned[item.equipment := kept.value];
    }
    assert items[..|items|] == items;
    r := Some(planned);
  }

  // ----- running time

  function SpansAt(running: map<int, seq<Span>>, equipment: int): seq<Span> {
    if equipment in running then running[equipment] else []
  }

  ghost predicate RunningOf(running: map<int, seq<Span>>, sessions: seq<Session>, events: seq<LoggedEvent>, asOf: int) {
    forall e :: Points(SpansAt(running, e)) == RunningPoints(sessions, events, e, asOf)
  }

  /** Adding one session's spans to its equipment. */
  lemma NextSession(running: map<int, seq<Span>>, sessions: seq<Session>, k: nat, events: seq<LoggedEvent>, asOf: int,
                    spans: seq<Span>)
    requires k < |sessions| && RunningOf(running, sessions[..k], events, asOf)
    requires sessions[k].equipment.Some? && Points(spans) == SessionPoints(sessions[k], events, asOf)
    ensures var key := sessions[k].equipment.value;
            RunningOf(running[key := SpansAt(running, key) + spans], sessions[..k + 1], events, asOf)
  {
    var key := sessions[k].equipment.value;
    var next := sessions[..k + 1];
    assert next[..k] == sessions[..k] && next[k] == sessions[k];
    PointsJoin(SpansAt(running, key), spans);
    hide Points, SessionPoints;
    var after := running[key := SpansAt(running, key) + spans];
    forall e ensures Points(SpansAt(after, e)) == RunningPoints(next, events, e, asOf) {
      assert Points(SpansAt(running, e)) == RunningPoints(sessions[..k], events, e, asOf);
    }
  }

  lemma SkippedSession(running: map<int, seq<Span>>, sessions: seq<Session>, k: nat, events: seq<LoggedEvent>,
                       asOf: int)
    requires k < |sessions| && RunningOf(running, sessions[..k], events, asOf) && sessions[k].equipment == None
    ensures RunningOf(running, sessions[..k + 1], events, asOf)
  {
    var next := sessions[..k + 1];
    assert next[..k] == sessions[..k] && next[k] == sessions[k];
    hide Points;
    forall e ensures Points(SpansAt(running, e)) == RunningPoints(next, events, e, asOf) {
      assert Points(SpansAt(running, e)) == RunningPoints(sessions[..k], events, e, asOf);
    }
  }

  method RunningByEquipment(plant: Plant, asOf: int) returns (keys: seq<int>, running: map<int, seq<Span>>)
    ensures keys == EquipmentKeys(plant.sessions)
    ensures forall e :: e in keys <==> e in running
    ensures RunningOf(running, plant.sessions, plant.events, asOf)
  {
    keys, running := [], map[];
    for k := 0 to |plant.sessions|
      invariant keys == EquipmentKeys(plant.sessions[..k])
      invariant forall e :: e in keys <==> e in running
      invariant RunningOf(running, plant.sessions[..k], plant.events, asOf)
    {
      hide RunningOf;
      var row := plant.sessions[k];
      assert plant.sessions[..k + 1][..k] == plant.sessions[..k];
      if row.equipment == None {
        SkippedSession(running, plant.sessions, k, plant.events, asOf);
        continue;
      }
      var key := row.equipment.value;
      var spans := RunningSpans(row.startedAt, SessionEnd(row, asOf), EventsOf(plant.events, row.id));
      assert Points(spans) == SessionPoints(row, plant.events, asOf);
      NextSession(running, plant.sessions, k, plant.events, asOf, spans);
      if key !in keys {
        keys := keys + [key];
      }
      running := running[key := SpansAt(running, key) + spans];
    }
    assert plant.sessions[..|plant.sessions|] == plant.sessions;
  }

  /** Running, inside the measured window, and (when the calendar could be read) planned. */
  ghost function ActualPoints(plant: Plant, item: Scoped, asOf: int, resolved: bool): set<int>
    requires resolved ==> SlotsResolved(plant.slots, item.equipment)
  {
    var measured := RunningPoints(plant.sessions, plant.events, item.equipment, asOf) * Instants(plant.measured);
    if resolved then measured * PlannedPoints(plant, item) else measured
  }

  ghost function ActualTotal(plant: Plant, items: seq<Scoped>, asOf: int, resolved: bool): nat
    requires resolved ==> AllResolved(plant, items)
  {
    if items == [] then 0
    else
      ActualTotal(plant, items[..|items| - 1], asOf, resolved) +
      |ActualPoints(plant, items[|items| - 1], asOf, resolved)|
  }

  ghost function PlannedTotal(plant: Plant, items: seq<Scoped>): nat
    requires AllResolved(plant, items)
  {
    if items == [] then 0
    else PlannedTotal(plant, items[..|items| - 1]) + |PlannedPoints(plant, items[|items| - 1])|
  }

  /** The counted time of one equipment: its running spans merged, clipped and, if known, held against the plan. */
  method CountedLength(plant: Plant, asOf: int, item: Scoped, spans: seq<Span>, planned: Option<seq<Span>>)
    returns (length: nat)
    requires Points(spans) == RunningPoints(plant.sessions, plant.events, item.equipment, asOf)
    requires planned.Some? ==> SlotsResolved(plant.slots, item.equipment)
    requires planned.Some? ==> Normal(planned.value) && Points(planned.value) == PlannedPoints(plant, item)
    ensures length == |ActualPoints(plant, item, asOf, planned.Some?)|
  {
    hide Points, RunningPoints, PlannedPoints, SlotsResolved;
    var merged := Union(spans);
    var measured := ClipAll(merged, plant.measured);
    var counted := measured;
    if planned.Some? {
      counted := Intersect(measured, planned.value);
    }
    length := TotalLength(counted);
  }

  method Actual(plant: Plant, asOf: int, planned: Option<map<int, seq<Span>>>) returns (total: nat)
    requires planned.Some? ==> AllResolved(plant, ScopeOf(plant.sessions))
    requires planned.Some? ==> PlannedFor(plant, ScopeOf(plant.sessions), planned.value)
    ensures total == ActualTotal(plant, ScopeOf(plant.sessions), asOf, planned.Some?)
  {
    var keys, running := RunningByEquipment(plant, asOf);
    ghost var items := ScopeOf(plant.sessions);
    total := 0;
    for k := 0 to |keys|
      invariant total == ActualTotal(plant, items[..k], asOf, planned.Some?)
    {
      hide Points, RunningPoints, PlannedPoints, SlotsResolved, ActualPoints, EquipmentKeys, Normal;
      assert items[..k + 1][..k] == items[..k];
      assert keys[k] in keys && items[k].equipment == keys[k];
      assert Points(SpansAt(running, keys[k])) == RunningPoints(plant.sessions, plant.events, keys[k], asOf);
      assert planned.Some? ==> items[k].equipment in planned.value;
      var ofItem := if planned.Some? then Some(planned.value[keys[k]]) else None;
      var item := Scoped(keys[k], LineOf(plant.sessions, keys[k]));
      var length := CountedLength(plant, asOf, item, running[keys[k]], ofItem);
      total := total + length;
    }
    assert items[..|keys|] == items;
  }

  method SumLengths(plant: Plant, items: seq<Scoped>, planned: map<int, seq<Span>>) returns (sum: nat)
    requires AllResolved(plant, items) && PlannedFor(plant, items, planned)
    ensures sum == PlannedTotal(plant, items)
  {
    sum := 0;
    for k := 0 to |items|
      invariant sum == PlannedTotal(plant, items[..k])
    {
      assert items[..k + 1][..k] == items[..k];
      var length := TotalLength(planned[items[k].equipment]);
      sum := sum + length;
    }
    assert items[..|items|] == items;
  }

  // ----- the figures over all plants

  ghost predicate PlantResolved(plant: Plant) {
    AllResolved(plant, ScopeOf(plant.sessions))
  }

  ghost predicate PlantsResolved(plants: seq<Plant>) {
    forall i :: 0 <= i < |plants| ==> PlantResolved(plants[i])
  }

  ghost function PlannedOverPlants(plants: seq<Plant>): nat
    requires PlantsResolved(plants)
  {
    if plants == [] then 0
    else
      assert PlantResolved(plants[|plants| - 1]);
      PlannedOverPlants(plants[..|plants| - 1]) +
      PlannedTotal(plants[|plants| - 1], ScopeOf(plants[|plants| - 1].sessions))
  }

  ghost function ActualOverPlants(plants: seq<Plant>, asOf: int): nat {
    if plants == [] then 0
    else
      var last := plants[|plants| - 1];
      ActualOverPlants(plants[..|plants| - 1], asOf) +
      ActualTotal(last, ScopeOf(last.sessions), asOf, PlantResolved(last))
  }

  ghost function EquipmentOverPlants(plants: seq<Plant>): nat {
    if plants == [] then 0
    else EquipmentOverPlants(plants[..|plants| - 1]) + |EquipmentKeys(plants[|plants| - 1].sessions)|
  }

  function Excluded(sessions: seq<Session>): nat {
    if sessions == [] then 0
    else Excluded(sessions[..|sessions| - 1]) + if sessions[|sessions| - 1].equipment == None then 1 else 0
  }

  function ExcludedOverPlants(plants: seq<Plant>): nat {
    if plants == [] then 0
    else ExcludedOverPlants(plants[..|plants| - 1]) + Excluded(plants[|plants| - 1].sessions)
  }

  lemma ScopeIsDistinct(sessions: seq<Session>)
    ensures DistinctScope(ScopeOf(sessions))
  {
    KeysAreTheEquipment(sessions);
  }

  lemma SubsetSize(a: set<int>, b: set<int>)
    requires a <= b
    ensures |a| <= |b|
  {
    assert b == a + (b - a);
  }

  lemma {:induction false} ActualWithinPlanned(plant: Plant, items: seq<Scoped>, asOf: int)
    requires AllResolved(plant, items)
    ensures ActualTotal(plant, items, asOf, true) <= PlannedTotal(plant, items)
  {
    if items != [] {
      ActualWithinPlanned(plant, items[..|items| - 1], asOf);
      SubsetSize(ActualPoints(plant, items[|items| - 1], asOf, true), PlannedPoints(plant, items[|items| - 1]));
    }
  }

  lemma {:induction false} ActualWithinPlannedOverPlants(plants: seq<Plant>, asOf: int)
    requires PlantsResolved(plants)
    ensures ActualOverPlants(plants, asOf) <= PlannedOverPlants(plants)
  {
    if plants != [] {
      var last := plants[|plants| - 1];
      assert PlantResolved(last);
      ActualWithinPlannedOverPlants(plants[..|plants| - 1], asOf);
      ActualWithinPlanned(last, ScopeOf(last.sessions), asOf);
    }
  }

  /** The figures grew by those of one plant. */
  ghost predicate PlantAdded(plant: Plant, asOf: int, before: Figures, after: Figures) {
    && (after.plannedMs.Some? <==> before.plannedMs.Some? && PlantResolved(plant))
    && (after.plannedMs.Some? ==>
          after.plannedMs.value == before.plannedMs.value + PlannedTotal(plant, ScopeOf(plant.sessions)))
    && after.actualMs == before.actualMs + ActualTotal(plant, ScopeOf(plant.sessions), asOf, PlantResolved(plant))
    && after.equipmentCount == before.equipmentCount + |EquipmentKeys(plant.sessions)|
    && after.excludedSessionCount == before.excludedSessionCount + Excluded(plant.sessions)
  }

  /** One round of the loop over plants; a plant without equipment in scope adds only its excluded sessions. */
  method AddPlant(plant: Plant, asOf: int, before: Figures) returns (after: Figures)
    ensures PlantAdded(plant, asOf, before, after)
  {
    after := before.(excludedSessionCount := before.excludedSessionCount + Excluded(plant.sessions));
    var items := ScopeEquipment(plant.sessions);
    if |items| == 0 {
      return;
    }
    ScopeIsDistinct(plant.sessions);
    var planned := PlannedTime(plant, items);
    if planned == None || before.plannedMs == None {
      after := after.(plannedMs := None);
    } else {
      var sum := SumLengths(plant, items, planned.value);
      after := after.(plannedMs := Some(before.plannedMs.value + sum));
    }
    var actual := Actual(plant, asOf, planned);
    after := after.(actualMs := before.actualMs + actual, equipmentCount := before.equipmentCount + |items|);
  }

  ghost predicate FiguresOf(plants: seq<Plant>, asOf: int, r: Figures) {
    && (r.plannedMs.Some? <==> PlantsResolved(plants))
    && (r.plannedMs.Some? ==> r.plannedMs.value == PlannedOverPlants(plants))
    && r.actualMs == ActualOverPlants(plants, asOf)
    && r.equipmentCount == EquipmentOverPlants(plants)
    && r.excludedSessionCount == ExcludedOverPlants(plants)
  }

  lemma ResolvedPush(plants: seq<Plant>, plant: Plant)
    ensures PlantsResolved(plants + [plant]) <==> PlantsResolved(plants) && PlantResolved(plant)
  {
    var all := plants + [plant];
    if PlantsResolved(all) {
      assert PlantResolved(all[|plants|]);
      forall i | 0 <= i < |plants| ensures PlantResolved(plants[i]) {
        assert PlantResolved(all[i]);
      }
    }
  }

  lemma FiguresPush(plants: seq<Plant>, plant: Plant, asOf: int)
    ensures ActualOverPlants(plants + [plant], asOf) ==
              ActualOverPlants(plants, asOf) +
              ActualTotal(plant, ScopeOf(plant.sessions), asOf, PlantResolved(plant))
    ensures EquipmentOverPlants(plants + [plant]) == EquipmentOverPlants(plants) + |EquipmentKeys(plant.sessions)|
    ensures ExcludedOverPlants(plants + [plant]) == ExcludedOverPlants(plants) + Excluded(plant.sessions)
    ensures PlantsResolved(plants + [plant]) <==> PlantsResolved(plants) && PlantResolved(plant)
    ensures PlantsResolved(plants + [plant]) ==>
              PlannedOverPlants(plants + [plant]) ==
              PlannedOverPlants(plants) + PlannedTotal(plant, ScopeOf(plant.sessions))
  {
    ResolvedPush(plants, plant);
    assert (plants + [plant])[..|plants|] == plants;
  }

  lemma FiguresNext(plants: seq<Plant>, plant: Plant, asOf: int, before: Figures, after: Figures)
    requires FiguresOf(plants, asOf, before) && PlantAdded(plant, asOf, before, after)
    ensures FiguresOf(plants + [plant], asOf, after)
  {
    hide PlantsResolved, PlantResolved, PlannedOverPlants, ActualOverPlants, EquipmentOverPlants, ExcludedOverPlants;
    hide ActualTotal, PlannedTotal, ScopeOf, EquipmentKeys, Excluded;
    FiguresPush(plants, plant, asOf);
  }

  lemma NoFigures(asOf: int)
    ensures FiguresOf([], asOf, Figures(Some(0), 0, 0, 0))
  {
  }

  /** Actual time never exceeds planned time when every calendar could be read. */
  method ComputeFigures(plants: seq<Plant>, asOf: int) returns (r: Figures)
    ensures FiguresOf(plants, asOf, r)
    ensures r.plannedMs.Some? ==> r.actualMs <= r.plannedMs.value
  {
    hide PlantAdded, PlantsResolved, PlannedOverPlants, ActualOverPlants;
    r := Figures(Some(0), 0, 0, 0);
    NoFigures(asOf);
    for k := 0 to |plants|
      invariant FiguresOf(plants[..k], asOf, r)
    {
      var next := AddPlant(plants[k], asOf, r);
      FiguresNext(plants[..k], plants[k], asOf, r, next);
      assert plants[..k + 1] == plants[..k] + [plants[k]];
      r := next;
    }
    assert plants[..|plants|] == plants;
    if r.plannedMs.Some? {
      ActualWithinPlannedOverPlants(plants, asOf);
    }
  }

  // ----- the card

  datatype Reason = NO_SESSION | CALENDAR_UNRESOLVED | NO_PLANNED_TIME

  datatype Card = NotYet(reason: Reason) | Rate(value: real, excludedCount: nat)

  function AvailabilityCard(figures: Figures): (card: Card)
  {
    if figures.equipmentCount == 0 then NotYet(NO_SESSION)
    else if figures.plannedMs == None then NotYet(CALENDAR_UNRESOLVED)
    else if figures.plannedMs.value == 0 then NotYet(NO_PLANNED_TIME)
    else Rate(CapRate(figures.actualMs as real / figures.plannedMs.value as real * 100.0), figures.excludedSessionCount)
  }

  /**
   * The cap has nothing to cut: on figures whose actual time is within the planned time (as
   * ComputeFigures promises), the card shows the exact quotient, whenever there is planned time.
   */
  lemma CapNeverBinds(figures: Figures)
    requires figures.plannedMs.Some? ==> figures.actualMs <= figures.plannedMs.value
    ensures AvailabilityCard(figures).Rate? <==>
              figures.equipmentCount > 0 && figures.plannedMs.Some? && figures.plannedMs.value > 0
    ensures AvailabilityCard(figures).Rate? ==> 0.0 <= AvailabilityCard(figures).value <= 100.0
    ensures AvailabilityCard(figures).Rate? ==>
              AvailabilityCard(figures).value * figures.plannedMs.value as real == 100.0 * figures.actualMs as real
  {
    if AvailabilityCard(figures).Rate? {
      var actual, planned := figures.actualMs as real, figures.plannedMs.value as real;
      var q := actual / planned;
      assert q * planned == actual;
      assert 0.0 <= q <= 1.0;
      assert (q * 100.0) * planned == 100.0 * actual;
    }
  }

  /**
   * From the plants to the card: when there is planned time, the card shows exactly actual over planned
   * time, which needs no cap; otherwise it names the reason.
   */
  method ReadAvailability(plants: seq<Plant>, asOf: int) returns (card: Card)
    ensures EquipmentOverPlants(plants) == 0 ==> card == NotYet(NO_SESSION)
    ensures EquipmentOverPlants(plants) > 0 && !PlantsResolved(plants) ==> card == NotYet(CALENDAR_UNRESOLVED)
    ensures EquipmentOverPlants(plants) > 0 && PlantsResolved(plants) && PlannedOverPlants(plants) == 0 ==>
              card == NotYet(NO_PLANNED_TIME)
    ensures EquipmentOverPlants(plants) > 0 && PlantsResolved(plants) && PlannedOverPlants(plants) > 0 ==>
              && card.Rate? && 0.0 <= card.value <= 100.0 && card.excludedCount == ExcludedOverPlants(plants)
              && card.value * PlannedOverPlants(plants) as real == 100.0 * ActualOverPlants(plants, asOf) as real
  {
    hide PlantsResolved, PlannedOverPlants, ActualOverPlants, EquipmentOverPlants, ExcludedOverPlants;
    var figures := ComputeFigures(plants, asOf);
    CapNeverBinds(figures);
    card := AvailabilityCard(figures);
  }
}
