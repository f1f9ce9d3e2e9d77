/**
 * What the availability card counts, said from the rows alone (dashboard-availability.service.ts,
 * downtime-summary-planned.ts): which instants of which equipment are running or planned, and
 * that the four figures are the numbers of them, overlaps counted once.
 */
module CountedTime {
  import opened Results
  import opened Intervals
  import opened Availability

  // ----- a session at an instant

  ghost predicate IsWord(e: LoggedEvent, session: int, x: int) {
    && e.session == session
    && (e.event.eventType == STOP || e.event.eventType == RESUME)
    && e.event.occurredAt <= x
  }

  /** Row i is the session's last stop or resume up to x; of several at one time, the one listed last. */
  ghost predicate LastWord(events: seq<LoggedEvent>, session: int, i: int, x: int) {
    && 0 <= i < |events| && IsWord(events[i], session, x)
    && forall j :: 0 <= j < |events| && IsWord(events[j], session, x) ==>
         || events[j].event.occurredAt < events[i].event.occurredAt
         || (events[j].event.occurredAt == events[i].event.occurredAt && j <= i)
  }

  ghost predicate StoppedBy(events: seq<LoggedEvent>, session: int, x: int) {
    exists i :: LastWord(events, session, i, x) && events[i].event.eventType == STOP
  }

  lemma LastWordFurther(events: seq<LoggedEvent>, session: int, i: int, x: int)
    requires events != [] && LastWord(events[1..], session, i, x)
    requires IsWord(events[0], session, x) ==> events[0].event.occurredAt <= events[1..][i].event.occurredAt
    ensures LastWord(events, session, i + 1, x)
  {
    assert forall j :: 0 < j < |events| ==> events[j] == events[1..][j - 1];
    hide IsWord;
  }

  lemma LastWordFirst(events: seq<LoggedEvent>, session: int, x: int)
    requires events != [] && IsWord(events[0], session, x)
    requires forall j :: 0 <= j < |events[1..]| && IsWord(events[1..][j], session, x) ==>
               events[1..][j].event.occurredAt < events[0].event.occurredAt
    ensures LastWord(events, session, 0, x)
  {
    assert forall j :: 0 < j < |events| ==> events[j] == events[1..][j - 1];
    hide IsWord;
  }

  lemma NoWordYet(events: seq<LoggedEvent>, session: int, x: int)
    requires events != []
    ensures (forall j :: 0 <= j < |events| ==> !IsWord(events[j], session, x)) <==>
            !IsWord(events[0], session, x)
            && forall j :: 0 <= j < |events[1..]| ==> !IsWord(events[1..][j], session, x)
  {
    hide IsWord;
    assert forall j :: 0 < j < |events| ==> events[j] == events[1..][j - 1];
  }

  lemma LatestStep(events: seq<LoggedEvent>, session: int, x: int)
    requires events != []
    ensures var rest := LatestAt(EventsOf(events[1..], session), x);
            LatestAt(EventsOf(events, session), x) ==
            if IsWord(events[0], session, x) && (rest == None || events[0].event.occurredAt > rest.value.occurredAt)
            then Some(events[0].event) else rest
  {
    if events[0].session == session {
      assert EventsOf(events, session)[1..] == EventsOf(events[1..], session);
    } else {
      assert EventsOf(events, session) == EventsOf(events[1..], session);
    }
  }

  lemma {:induction false} LatestIsLastWord(events: seq<LoggedEvent>, session: int, x: int)
    ensures LatestAt(EventsOf(events, session), x) == None <==>
            forall j :: 0 <= j < |events| ==> !IsWord(events[j], session, x)
    ensures LatestAt(EventsOf(events, session), x).Some? ==>
              exists i :: LastWord(events, session, i, x)
                          && events[i].event == LatestAt(EventsOf(events, session), x).value
  {
    if events != [] {
      var tail := events[1..];
      var rest := LatestAt(EventsOf(tail, session), x);
      LatestIsLastWord(tail, session, x);
      LatestStep(events, session, x);
      NoWordYet(events, session, x);
      hide IsWord, LatestAt, EventsOf;
      if rest == None {
        if IsWord(events[0], session, x) { LastWordFirst(events, session, x); }
      } else {
        var i :| LastWord(tail, session, i, x) && tail[i].event == rest.value;
        if IsWord(events[0], session, x) && events[0].event.occurredAt > rest.value.occurredAt {
          LastWordFirst(events, session, x);
        } else {
          LastWordFurther(events, session, i, x);
        }
      }
    }
  }

  /** Only what is logged for the session itself stops it, and only its last stop or resume decides. */
  lemma StoppedByItsOwnEvents(events: seq<LoggedEvent>, session: int, x: int)
    ensures StoppedAt(EventsOf(events, session), x) <==> StoppedBy(events, session, x)
  {
    LatestIsLastWord(events, session, x);
  }

  /** An ended session is open until its end, a running one until the moment of counting. */
  ghost predicate OpenAt(session: Session, asOf: int, x: int) {
    && session.startedAt <= x
    && (session.endedAt.Some? ==> x < session.endedAt.value)
    && (session.endedAt == None ==> x < asOf)
  }

  ghost predicate RunsAt(plant: Plant, equipment: int, asOf: int, x: int) {
    exists k :: 0 <= k < |plant.sessions| && SessionRuns(plant.sessions[k], plant.events, equipment, asOf, x)
  }

  ghost predicate SessionRuns(session: Session, events: seq<LoggedEvent>, equipment: int, asOf: int, x: int) {
    && session.equipment == Some(equipment)
    && OpenAt(session, asOf, x)
    && !StoppedBy(events, session.id, x)
  }

  lemma {:induction false} RunningIs(sessions: seq<Session>, events: seq<LoggedEvent>, equipment: int, asOf: int,
                                     x: int)
    ensures x in RunningPoints(sessions, events, equipment, asOf) <==>
            exists k :: 0 <= k < |sessions| && SessionRuns(sessions[k], events, equipment, asOf, x)
  {
    if sessions != [] {
      var rest, last := sessions[..|sessions| - 1], sessions[|sessions| - 1];
      RunningIs(rest, events, equipment, asOf, x);
      StoppedByItsOwnEvents(events, last.id, x);
      hide StoppedAt, StoppedBy, EventsOf;
      assert forall k :: 0 <= k < |rest| ==> rest[k] == sessions[k];
      assert x in RunningPoints(sessions, events, equipment, asOf) <==>
             x in RunningPoints(rest, events, equipment, asOf) || SessionRuns(last, events, equipment, asOf, x);
    }
  }

  // ----- planned time at an instant

  /** A microsecond bound, cut to milliseconds towards zero, is no later than x. */
  predicate CutNoLater(us: int, x: int) {
    if x >= 0 then us < 1000 * x + 1000 else us <= 1000 * x
  }

  lemma CutTruncates(us: int, x: int)
    ensures TruncDiv(us, 1000) <= x <==> CutNoLater(us, x)
  {
  }

  predicate Readable(slot: Slot) {
    && slot.calendarActive == Some(true)
    && (slot.dayType == Some("WORKING") || slot.dayType == Some("HOLIDAY") || slot.dayType == Some("PARTIAL"))
    && slot.shiftId.Some? && slot.shiftValid == Some(true)
    && slot.shiftStartUs.Some? && slot.shiftEndUs.Some?
    && (slot.dayType == Some("PARTIAL") ==>
          slot.partialValid == Some(true) && slot.partialStartUs.Some? && slot.partialEndUs.Some?)
  }

  predicate InShift(slot: Slot, x: int)
    requires Readable(slot)
  {
    CutNoLater(slot.shiftStartUs.value, x) && !CutNoLater(slot.shiftEndUs.value, x)
  }

  /** A holiday takes the whole shift away, a partial day what lies outside its hours. */
  predicate OffDuty(slot: Slot, x: int)
    requires Readable(slot)
  {
    && InShift(slot, x)
    && (|| slot.dayType == Some("HOLIDAY")
        || (slot.dayType == Some("PARTIAL")
            && !(CutNoLater(slot.partialStartUs.value, x) && !CutNoLater(slot.partialEndUs.value, x))))
  }

  /** Session k is the last of the equipment: its line is the one the stops are matched with. */
  ghost predicate LastOf(sessions: seq<Session>, equipment: int, k: int) {
    && 0 <= k < |sessions| && sessions[k].equipment == Some(equipment)
    && forall j :: k < j < |sessions| ==> sessions[j].equipment != Some(equipment)
  }

  /** A stop that names equipment holds that equipment only; otherwise it holds the line it names. */
  ghost predicate StopNames(stop: PlannedStop, sessions: seq<Session>, equipment: int) {
    || stop.equipment == Some(equipment)
    || (stop.equipment == None && stop.line.Some?
        && exists k :: LastOf(sessions, equipment, k) && sessions[k].line == stop.line)
  }

  ghost predicate AllReadable(slots: seq<Slot>, equipment: int) {
    forall s :: 0 <= s < |slots| && slots[s].equipment == equipment ==> Readable(slots[s])
  }

  ghost predicate SlotHolds(slot: Slot, equipment: int, x: int) {
    slot.equipment == equipment && Readable(slot) && InShift(slot, x)
  }

  ghost predicate SlotFrees(slot: Slot, equipment: int, x: int) {
    slot.equipment == equipment && Readable(slot) && OffDuty(slot, x)
  }

  ghost predicate StopHolds(stop: PlannedStop, sessions: seq<Session>, equipment: int, x: int) {
    stop.span.start <= x < stop.span.end && StopNames(stop, sessions, equipment)
  }

  /** Measured, in some shift of the equipment, off duty by none of its slots, in no stop that names it. */
  ghost predicate PlannedAt(plant: Plant, equipment: int, x: int) {
    && plant.measured.start <= x < plant.measured.end
    && (exists s :: 0 <= s < |plant.slots| && SlotHolds(plant.slots[s], equipment, x))
    && (forall s :: 0 <= s < |plant.slots| ==> !SlotFrees(plant.slots[s], equipment, x))
    && (forall t :: 0 <= t < |plant.stops| ==> !StopHolds(plant.stops[t], plant.sessions, equipment, x))
  }

  lemma ReadableIs(slot: Slot)
    ensures SlotResolved(slot) <==> Readable(slot)
  {
  }

  lemma ReadableAre(slots: seq<Slot>, equipment: int)
    ensures SlotsResolved(slots, equipment) <==> AllReadable(slots, equipment)
  {
    forall s | 0 <= s < |slots| ensures SlotResolved(slots[s]) <==> Readable(slots[s]) {
      ReadableIs(slots[s]);
    }
    hide SlotResolved, Readable;
  }

  lemma ShiftIs(slot: Slot, x: int)
    requires SlotResolved(slot) && Readable(slot)
    ensures x in Instants(ToMs(Span(slot.shiftStartUs.value, slot.shiftEndUs.value))) <==> InShift(slot, x)
  {
    CutTruncates(slot.shiftStartUs.value, x);
    CutTruncates(slot.shiftEndUs.value, x);
  }

  lemma {:induction false} MsPointsAre(spans: seq<Span>, x: int)
    ensures x in MsPoints(spans) <==> exists s :: s in spans && CutNoLater(s.start, x) && !CutNoLater(s.end, x)
  {
    if spans != [] {
      var rest, last := spans[..|spans| - 1], spans[|spans| - 1];
      MsPointsAre(rest, x);
      assert spans == rest + [last];
      CutTruncates(last.start, x);
      CutTruncates(last.end, x);
      hide CutNoLater, TruncDiv;
    }
  }

  /** The two off-duty stretches of a partial day, in milliseconds. */
  lemma PartialIs(slot: Slot, x: int)
    requires SlotResolved(slot) && Readable(slot) && slot.dayType == Some("PARTIAL")
    ensures (exists s :: s in Holidays(slot).value && CutNoLater(s.start, x) && !CutNoLater(s.end, x)) <==>
            OffDuty(slot, x)
  {
    var from, to := slot.shiftStartUs.value, slot.shiftEndUs.value;
    var morning := Span(from, Min(slot.partialStartUs.value, to));
    var evening := Span(Max(slot.partialEndUs.value, from), to);
    var spans := NonEmpty([morning, evening]);
    assert Holidays(slot).value == spans;
    hide SlotResolved, Holidays, Readable, NonEmpty;
    assert morning in [morning, evening] && evening in [morning, evening];
    assert forall s :: s in spans ==> s == morning || s == evening;
  }

  lemma OffDutyIs(slot: Slot, x: int)
    requires SlotResolved(slot) && Readable(slot)
    ensures x in MsPoints(Holidays(slot).value) <==> OffDuty(slot, x)
  {
    MsPointsAre(Holidays(slot).value, x);
    hide MsPoints, CutNoLater;
    if slot.dayType == Some("HOLIDAY") {
      assert Span(slot.shiftStartUs.value, slot.shiftEndUs.value) in Holidays(slot).value;
    } else if slot.dayType == Some("PARTIAL") {
      PartialIs(slot, x);
    }
  }

  lemma {:induction false} ShiftsAre(slots: seq<Slot>, equipment: int, x: int)
    requires SlotsResolved(slots, equipment)
    ensures x in ShiftPoints(slots, equipment) <==>
            exists s :: 0 <= s < |slots| && SlotHolds(slots[s], equipment, x)
    ensures x in HolidayPoints(slots, equipment) <==>
            exists s :: 0 <= s < |slots| && SlotFrees(slots[s], equipment, x)
  {
    hide SlotResolved, Readable, InShift, OffDuty, MsPoints, ToMs, Holidays;
    if slots != [] {
      var rest, last := slots[..|slots| - 1], slots[|slots| - 1];
      ShiftsAre(rest, equipment, x);
      ReadableIs(last);
      if last.equipment == equipment {
        ShiftIs(last, x);
        OffDutyIs(last, x);
      }
      assert forall s :: 0 <= s < |rest| ==> rest[s] == slots[s];
      assert SlotHolds(last, equipment, x) ==> SlotHolds(slots[|slots| - 1], equipment, x);
    }
  }

  /** The line in scope is that of the equipment's last session. */
  lemma {:induction false} LineIsTheLast(sessions: seq<Session>, equipment: int, k: int)
    requires LastOf(sessions, equipment, k)
    ensures LineOf(sessions, equipment) == sessions[k].line
  {
    var rest := sessions[..|sessions| - 1];
    if k < |rest| {
      assert rest[k] == sessions[k];
      LineIsTheLast(rest, equipment, k);
    }
  }

  lemma {:induction false} LastExists(sessions: seq<Session>, equipment: int) returns (k: int)
    requires exists j :: 0 <= j < |sessions| && sessions[j].equipment == Some(equipment)
    ensures LastOf(sessions, equipment, k)
  {
    k := |sessions| - 1;
    if sessions[k].equipment != Some(equipment) {
      var rest := sessions[..k];
      var j :| 0 <= j < |sessions| && sessions[j].equipment == Some(equipment);
      assert rest[j].equipment == Some(equipment);
      k := LastExists(rest, equipment);
    }
  }

  lemma {:induction false} StopsAre(stops: seq<PlannedStop>, sessions: seq<Session>, item: Scoped, x: int)
    requires exists k :: LastOf(sessions, item.equipment, k) && sessions[k].line == item.line
    ensures x in StopPoints(stops, item) <==>
            exists t :: 0 <= t < |stops| && StopHolds(stops[t], sessions, item.equipment, x)
  {
    if stops != [] {
      var rest, last := stops[..|stops| - 1], stops[|stops| - 1];
      StopsAre(rest, sessions, item, x);
      assert forall t :: 0 <= t < |rest| ==> rest[t] == stops[t];
      assert StopApplies(last, item) <==> StopNames(last, sessions, item.equipment);
      hide StopApplies, StopNames;
    }
  }

  // ----- the scope

  ghost predicate HasSession(sessions: seq<Session>, equipment: int) {
    exists k :: 0 <= k < |sessions| && sessions[k].equipment == Some(equipment)
  }

  lemma KeysHaveSessions(sessions: seq<Session>)
    ensures forall e :: e in EquipmentKeys(sessions) <==> HasSession(sessions, e)
  {
    KeysAreTheEquipment(sessions);
    forall e ensures e in EquipmentKeys(sessions) <==> HasSession(sessions, e) {
      if HasSession(sessions, e) {
        var k :| 0 <= k < |sessions| && sessions[k].equipment == Some(e);
        assert sessions[k] in sessions;
      }
    }
  }

  lemma ScopedIs(sessions: seq<Session>, i: int)
    requires 0 <= i < |ScopeOf(sessions)|
    ensures exists k :: LastOf(sessions, ScopeOf(sessions)[i].equipment, k)
                        && sessions[k].line == ScopeOf(sessions)[i].line
  {
    var e := EquipmentKeys(sessions)[i];
    KeysHaveSessions(sessions);
    assert e in EquipmentKeys(sessions);
    var k := LastExists(sessions, e);
    LineIsTheLast(sessions, e, k);
  }

  lemma PlannedIs(plant: Plant, i: int, x: int)
    requires 0 <= i < |ScopeOf(plant.sessions)|
    requires SlotsResolved(plant.slots, ScopeOf(plant.sessions)[i].equipment)
    ensures x in PlannedPoints(plant, ScopeOf(plant.sessions)[i]) <==>
            PlannedAt(plant, ScopeOf(plant.sessions)[i].equipment, x)
  {
    var item := ScopeOf(plant.sessions)[i];
    ScopedIs(plant.sessions, i);
    ShiftsAre(plant.slots, item.equipment, x);
    StopsAre(plant.stops, plant.sessions, item, x);
    hide ScopeOf, ShiftPoints, HolidayPoints, StopPoints, SlotsResolved, SlotHolds, SlotFrees, StopHolds;
  }

  /** Counted: running while measured, and planned as well when the calendar of the plant can be read. */
  ghost predicate CountedAt(plant: Plant, equipment: int, asOf: int, x: int) {
    && plant.measured.start <= x < plant.measured.end
    && RunsAt(plant, equipment, asOf, x)
    && (PlantReadable(plant) ==> PlannedAt(plant, equipment, x))
  }

  /** Every slot of every equipment with a session can be read. */
  ghost predicate PlantReadable(plant: Plant) {
    forall e :: HasSession(plant.sessions, e) ==> AllReadable(plant.slots, e)
  }

  lemma PlantReadableIs(plant: Plant)
    ensures PlantResolved(plant) <==> PlantReadable(plant)
  {
    var keys := EquipmentKeys(plant.sessions);
    KeysHaveSessions(plant.sessions);
    forall e ensures SlotsResolved(plant.slots, e) <==> AllReadable(plant.slots, e) {
      ReadableAre(plant.slots, e);
    }
    hide SlotsResolved, AllReadable, HasSession;
    if PlantReadable(plant) {
      forall i | 0 <= i < |keys| ensures SlotsResolved(plant.slots, ScopeOf(plant.sessions)[i].equipment) {
        assert keys[i] in keys;
      }
    }
    if PlantResolved(plant) {
      forall e | e in keys ensures AllReadable(plant.slots, e) {
        var i :| 0 <= i < |keys| && keys[i] == e;
        assert SlotsResolved(plant.slots, ScopeOf(plant.sessions)[i].equipment);
      }
    }
  }

  lemma CountedIs(plant: Plant, i: int, asOf: int, x: int)
    requires 0 <= i < |ScopeOf(plant.sessions)|
    ensures PlantResolved(plant) ==> SlotsResolved(plant.slots, ScopeOf(plant.sessions)[i].equipment)
    ensures x in ActualPoints(plant, ScopeOf(plant.sessions)[i], asOf, PlantResolved(plant)) <==>
            CountedAt(plant, ScopeOf(plant.sessions)[i].equipment, asOf, x)
  {
    var item := ScopeOf(plant.sessions)[i];
    PlantReadableIs(plant);
    RunningIs(plant.sessions, plant.events, item.equipment, asOf, x);
    if PlantResolved(plant) {
      PlannedIs(plant, i, x);
    }
    hide ScopeOf, RunningPoints, PlannedPoints, SlotsResolved, PlannedAt, PlantReadable, SessionRuns;
  }

  // ----- the figures are numbers of instants

  ghost function Sizes<T>(sets: seq<set<T>>): nat {
    if sets == [] then 0 else Sizes(sets[..|sets| - 1]) + |sets[|sets| - 1]|
  }

  ghost function Tagged<K, T>(key: K, s: set<T>): set<(K, T)> {
    set t | t in s :: (key, t)
  }

  ghost function Pairs<K, T>(keys: seq<K>, sets: seq<set<T>>): set<(K, T)>
    requires |keys| == |sets|
  {
    if keys == [] then {}
    else Pairs(keys[..|keys| - 1], sets[..|keys| - 1]) + Tagged(keys[|keys| - 1], sets[|keys| - 1])
  }

  lemma {:induction false} TaggedSize<K, T>(key: K, s: set<T>)
    ensures |Tagged(key, s)| == |s|
  {
    if s == {} {
      assert Tagged(key, s) == {};
    } else {
      var t :| t in s;
      TaggedSize(key, s - {t});
      assert Tagged(key, s) == Tagged(key, s - {t}) + {(key, t)};
    }
  }

  lemma {:induction false} PairsAre<K, T>(keys: seq<K>, sets: seq<set<T>>, key: K, t: T)
    requires |keys| == |sets|
    ensures (key, t) in Pairs(keys, sets) <==> exists i :: 0 <= i < |keys| && keys[i] == key && t in sets[i]
  {
    if keys != [] {
      var n := |keys| - 1;
      PairsAre(keys[..n], sets[..n], key, t);
      assert forall i :: 0 <= i < n ==> keys[..n][i] == keys[i] && sets[..n][i] == sets[i];
    }
  }

  lemma SamePairs<K(!new), T(!new)>(a: set<(K, T)>, b: set<(K, T)>)
    requires forall key, t :: (key, t) in a <==> (key, t) in b
    ensures a == b
  {
    forall p ensures p in a <==> p in b {
      assert p == (p.0, p.1);
    }
  }

  /** Under distinct keys nothing is counted twice. */
  lemma {:induction false} PairsSize<K(!new), T(!new)>(keys: seq<K>, sets: seq<set<T>>)
    requires |keys| == |sets|
    requires forall i, j :: 0 <= i < j < |keys| ==> keys[i] != keys[j]
    ensures |Pairs(keys, sets)| == Sizes(sets)
  {
    if keys != [] {
      var n := |keys| - 1;
      PairsSize(keys[..n], sets[..n]);
      TaggedSize(keys[n], sets[n]);
      forall p | p in Tagged(keys[n], sets[n]) ensures p !in Pairs(keys[..n], sets[..n]) {
        PairsAre(keys[..n], sets[..n], p.0, p.1);
      }
      assert Pairs(keys[..n], sets[..n]) !! Tagged(keys[n], sets[n]);
    }
  }

  // ----- one plant

  /** The counted (equipment, instant) pairs of a plant. */
  ghost function CountedIn(plant: Plant, asOf: int): set<(int, int)> {
    set e, x | e in SessionEquipment(plant.sessions) && plant.measured.start <= x < plant.measured.end
               && CountedAt(plant, e, asOf, x) :: (e, x)
  }

  ghost function PlannedIn(plant: Plant): set<(int, int)> {
    set e, x | e in SessionEquipment(plant.sessions) && plant.measured.start <= x < plant.measured.end
               && PlannedAt(plant, e, x) :: (e, x)
  }

  ghost function SessionEquipment(sessions: seq<Session>): set<int> {
    set k | 0 <= k < |sessions| && sessions[k].equipment.Some? :: sessions[k].equipment.value
  }

  ghost function WithoutEquipment(sessions: seq<Session>): set<int> {
    set k | 0 <= k < |sessions| && sessions[k].equipment == None
  }

  ghost function ActualSets(plant: Plant, items: seq<Scoped>, asOf: int, resolved: bool): seq<set<int>>
    requires resolved ==> AllResolved(plant, items)
  {
    seq(|items|, i requires 0 <= i < |items| => ActualPoints(plant, items[i], asOf, resolved))
  }

  ghost function PlannedSets(plant: Plant, items: seq<Scoped>): seq<set<int>>
    requires AllResolved(plant, items)
  {
    seq(|items|, i requires 0 <= i < |items| => PlannedPoints(plant, items[i]))
  }

  lemma {:induction false} ActualTotalAddsSizes(plant: Plant, items: seq<Scoped>, asOf: int, resolved: bool)
    requires resolved ==> AllResolved(plant, items)
    ensures ActualTotal(plant, items, asOf, resolved) == Sizes(ActualSets(plant, items, asOf, resolved))
  {
    hide ActualPoints;
    if items != [] {
      var rest := items[..|items| - 1];
      ActualTotalAddsSizes(plant, rest, asOf, resolved);
      assert ActualSets(plant, items, asOf, resolved)[..|rest|] == ActualSets(plant, rest, asOf, resolved);
    }
  }

  lemma {:induction false} PlannedTotalAddsSizes(plant: Plant, items: seq<Scoped>)
    requires AllResolved(plant, items)
    ensures PlannedTotal(plant, items) == Sizes(PlannedSets(plant, items))
  {
    hide PlannedPoints;
    if items != [] {
      var rest := items[..|items| - 1];
      PlannedTotalAddsSizes(plant, rest);
      assert PlannedSets(plant, items)[..|rest|] == PlannedSets(plant, rest);
    }
  }

  lemma KeysAreDistinct(sessions: seq<Session>)
    ensures forall i, j :: 0 <= i < j < |EquipmentKeys(sessions)| ==>
              EquipmentKeys(sessions)[i] != EquipmentKeys(sessions)[j]
    ensures forall e :: e in EquipmentKeys(sessions) <==> e in SessionEquipment(sessions)
    ensures |ScopeOf(sessions)| == |EquipmentKeys(sessions)|
    ensures forall i :: 0 <= i < |EquipmentKeys(sessions)| ==>
              ScopeOf(sessions)[i].equipment == EquipmentKeys(sessions)[i]
  {
    KeysAreTheEquipment(sessions);
    KeysHaveSessions(sessions);
    hide EquipmentKeys;
  }

  /** The counted time of a plant is the number of its counted (equipment, instant) pairs. */
  lemma ActualCounts(plant: Plant, asOf: int)
    ensures ActualTotal(plant, ScopeOf(plant.sessions), asOf, PlantResolved(plant)) == |CountedIn(plant, asOf)|
  {
    hide ActualPoints, ActualTotal, CountedAt, EquipmentKeys, ScopeOf;
    var items, keys := ScopeOf(plant.sessions), EquipmentKeys(plant.sessions);
    var resolved := PlantResolved(plant);
    var sets := ActualSets(plant, items, asOf, resolved);
    KeysAreDistinct(plant.sessions);
    ActualTotalAddsSizes(plant, items, asOf, resolved);
    PairsSize(keys, sets);
    forall e, x ensures (e, x) in Pairs(keys, sets) <==> (e, x) in CountedIn(plant, asOf) {
      PairsAre(keys, sets, e, x);
      forall i | 0 <= i < |keys| ensures x in sets[i] <==> CountedAt(plant, keys[i], asOf, x) {
        CountedIs(plant, i, asOf, x);
      }
      CountedMember(plant, e, asOf, x);
    }
    SamePairs(Pairs(keys, sets), CountedIn(plant, asOf));
  }

  lemma CountedMember(plant: Plant, e: int, asOf: int, x: int)
    ensures (e, x) in CountedIn(plant, asOf) <==> e in SessionEquipment(plant.sessions) && CountedAt(plant, e, asOf, x)
  {
  }

  lemma PlannedMember(plant: Plant, e: int, x: int)
    ensures (e, x) in PlannedIn(plant) <==> e in SessionEquipment(plant.sessions) && PlannedAt(plant, e, x)
  {
  }

  lemma PlannedCounts(plant: Plant)
    requires PlantResolved(plant)
    ensures PlannedTotal(plant, ScopeOf(plant.sessions)) == |PlannedIn(plant)|
  {
    hide PlannedPoints, PlannedTotal, PlannedAt, EquipmentKeys, ScopeOf;
    var items, keys := ScopeOf(plant.sessions), EquipmentKeys(plant.sessions);
    var sets := PlannedSets(plant, items);
    KeysAreDistinct(plant.sessions);
    PlannedTotalAddsSizes(plant, items);
    PairsSize(keys, sets);
    forall e, x ensures (e, x) in Pairs(keys, sets) <==> (e, x) in PlannedIn(plant) {
      PairsAre(keys, sets, e, x);
      forall i | 0 <= i < |keys| ensures x in sets[i] <==> PlannedAt(plant, keys[i], x) {
        PlannedIs(plant, i, x);
      }
      PlannedMember(plant, e, x);
    }
    SamePairs(Pairs(keys, sets), PlannedIn(plant));
  }

  lemma {:induction false} DistinctSize(keys: seq<int>, s: set<int>)
    requires forall i, j :: 0 <= i < j < |keys| ==> keys[i] != keys[j]
    requires forall e :: e in keys <==> e in s
    ensures |keys| == |s|
  {
    if keys == [] {
      assert forall e :: e !in s;
    } else {
      var last := keys[|keys| - 1];
      assert forall e :: e in keys[..|keys| - 1] <==> e in keys && e != last;
      DistinctSize(keys[..|keys| - 1], s - {last});
      assert last in keys;
      assert s == (s - {last}) + {last};
    }
  }

  lemma {:induction false} ExcludedCounts(sessions: seq<Session>)
    ensures Excluded(sessions) == |WithoutEquipment(sessions)|
  {
    if sessions == [] {
      assert WithoutEquipment(sessions) == {};
    } else {
      var n := |sessions| - 1;
      var rest := sessions[..n];
      ExcludedCounts(rest);
      assert forall k :: 0 <= k < n ==> rest[k] == sessions[k];
      if sessions[n].equipment == None {
        assert WithoutEquipment(sessions) == WithoutEquipment(rest) + {n};
      } else {
        assert WithoutEquipment(sessions) == WithoutEquipment(rest);
      }
    }
  }

  // ----- all plants

  ghost predicate AllPlantsReadable(plants: seq<Plant>) {
    forall p :: 0 <= p < |plants| ==> PlantReadable(plants[p])
  }

  /** The (plant, equipment, instant) triples counted as running; each plant by its own calendar. */
  ghost function CountedTriples(plants: seq<Plant>, asOf: int): set<(int, (int, int))> {
    set p, c | 0 <= p < |plants| && c in CountedIn(plants[p], asOf) :: (p, c)
  }

  ghost function PlannedTriples(plants: seq<Plant>): set<(int, (int, int))> {
    set p, c | 0 <= p < |plants| && c in PlannedIn(plants[p]) :: (p, c)
  }

  ghost function EquipmentPairs(plants: seq<Plant>): set<(int, int)> {
    set p, e | 0 <= p < |plants| && e in SessionEquipment(plants[p].sessions) :: (p, e)
  }

  ghost function ExcludedPairs(plants: seq<Plant>): set<(int, int)> {
    set p, k | 0 <= p < |plants| && k in WithoutEquipment(plants[p].sessions) :: (p, k)
  }

  ghost function CountedSets(plants: seq<Plant>, asOf: int): (sets: seq<set<(int, int)>>)
    ensures |sets| == |plants| && forall p :: 0 <= p < |plants| ==> sets[p] == CountedIn(plants[p], asOf)
  {
    seq(|plants|, p requires 0 <= p < |plants| => CountedIn(plants[p], asOf))
  }

  ghost function PlannedSetsOver(plants: seq<Plant>): (sets: seq<set<(int, int)>>)
    ensures |sets| == |plants| && forall p :: 0 <= p < |plants| ==> sets[p] == PlannedIn(plants[p])
  {
    seq(|plants|, p requires 0 <= p < |plants| => PlannedIn(plants[p]))
  }

  ghost function SessionSets(plants: seq<Plant>): (sets: seq<set<int>>)
    ensures |sets| == |plants| && forall p :: 0 <= p < |plants| ==> sets[p] == SessionEquipment(plants[p].sessions)
  {
    seq(|plants|, p requires 0 <= p < |plants| => SessionEquipment(plants[p].sessions))
  }

  ghost function WithoutSets(plants: seq<Plant>): (sets: seq<set<int>>)
    ensures |sets| == |plants| && forall p :: 0 <= p < |plants| ==> sets[p] == WithoutEquipment(plants[p].sessions)
  {
    seq(|plants|, p requires 0 <= p < |plants| => WithoutEquipment(plants[p].sessions))
  }

  ghost function Indices(n: nat): (s: seq<int>)
    ensures |s| == n && forall i :: 0 <= i < n ==> s[i] == i
  {
    seq(n, i => i)
  }

  /** A union of sets, each told apart by its index, is as large as they are together. */
  lemma UnionSize<T(!new)>(sets: seq<set<T>>, all: set<(int, T)>)
    requires forall p, t :: (p, t) in all <==> 0 <= p < |sets| && t in sets[p]
    ensures |all| == Sizes(sets)
  {
    hide Pairs, Sizes;
    var keys := Indices(|sets|);
    PairsSize(keys, sets);
    forall p, t ensures (p, t) in Pairs(keys, sets) <==> (p, t) in all {
      PairsAre(keys, sets, p, t);
    }
    SamePairs(Pairs(keys, sets), all);
  }

  lemma {:induction false} ActualOverPlantsAdds(plants: seq<Plant>, asOf: int)
    ensures ActualOverPlants(plants, asOf) == Sizes(CountedSets(plants, asOf))
  {
    hide CountedIn, ActualTotal, ScopeOf, PlantResolved;
    if plants != [] {
      var n := |plants| - 1;
      ActualOverPlantsAdds(plants[..n], asOf);
      ActualCounts(plants[n], asOf);
      assert CountedSets(plants, asOf)[..n] == CountedSets(plants[..n], asOf);
    }
  }

  lemma {:induction false} PlannedOverPlantsAdds(plants: seq<Plant>)
    requires PlantsResolved(plants)
    ensures PlannedOverPlants(plants) == Sizes(PlannedSetsOver(plants))
  {
    hide PlannedIn, PlannedTotal, ScopeOf;
    if plants != [] {
      var n := |plants| - 1;
      PlannedOverPlantsAdds(plants[..n]);
      assert PlantResolved(plants[n]);
      PlannedCounts(plants[n]);
      assert PlannedSetsOver(plants)[..n] == PlannedSetsOver(plants[..n]);
    }
  }

  lemma {:induction false} EquipmentOverPlantsAdds(plants: seq<Plant>)
    ensures EquipmentOverPlants(plants) == Sizes(SessionSets(plants))
    ensures ExcludedOverPlants(plants) == Sizes(WithoutSets(plants))
  {
    hide SessionEquipment, WithoutEquipment, EquipmentKeys, Excluded;
    if plants != [] {
      var n := |plants| - 1;
      EquipmentOverPlantsAdds(plants[..n]);
      KeysAreDistinct(plants[n].sessions);
      DistinctSize(EquipmentKeys(plants[n].sessions), SessionEquipment(plants[n].sessions));
      ExcludedCounts(plants[n].sessions);
      assert SessionSets(plants)[..n] == SessionSets(plants[..n]);
      assert WithoutSets(plants)[..n] == WithoutSets(plants[..n]);
    }
  }

  lemma ActualOverPlantsCounts(plants: seq<Plant>, asOf: int)
    ensures ActualOverPlants(plants, asOf) == |CountedTriples(plants, asOf)|
  {
    hide CountedIn, ActualOverPlants;
    ActualOverPlantsAdds(plants, asOf);
    UnionSize(CountedSets(plants, asOf), CountedTriples(plants, asOf));
  }

  lemma PlannedOverPlantsCounts(plants: seq<Plant>)
    requires PlantsResolved(plants)
    ensures PlannedOverPlants(plants) == |PlannedTriples(plants)|
  {
    hide PlannedIn, PlannedOverPlants, PlantsResolved;
    PlannedOverPlantsAdds(plants);
    UnionSize(PlannedSetsOver(plants), PlannedTriples(plants));
  }

  lemma EquipmentOverPlantsCounts(plants: seq<Plant>)
    ensures EquipmentOverPlants(plants) == |EquipmentPairs(plants)|
    ensures ExcludedOverPlants(plants) == |ExcludedPairs(plants)|
  {
    hide SessionEquipment, WithoutEquipment, EquipmentOverPlants, ExcludedOverPlants;
    EquipmentOverPlantsAdds(plants);
    forall p, e ensures (p, e) in EquipmentPairs(plants) <==> 0 <= p < |plants| && e in SessionSets(plants)[p] {
    }
    forall p, k ensures (p, k) in ExcludedPairs(plants) <==> 0 <= p < |plants| && k in WithoutSets(plants)[p] {
    }
    UnionSize(SessionSets(plants), EquipmentPairs(plants));
    UnionSize(WithoutSets(plants), ExcludedPairs(plants));
  }

  lemma PlantsReadableIs(plants: seq<Plant>)
    ensures PlantsResolved(plants) <==> AllPlantsReadable(plants)
  {
    forall p | 0 <= p < |plants| ensures PlantResolved(plants[p]) <==> PlantReadable(plants[p]) {
      PlantReadableIs(plants[p]);
    }
    hide PlantResolved, PlantReadable;
  }

  /**
   * The four figures are numbers of things in the rows: milliseconds of equipment that ran and, as far as
   * the plant's calendar can be read, were planned; planned ones; equipment with a session; sessions without.
   */
  lemma FiguresCount(plants: seq<Plant>, asOf: int, figures: Figures)
    requires FiguresOf(plants, asOf, figures)
    ensures figures.plannedMs.Some? <==> AllPlantsReadable(plants)
    ensures figures.plannedMs.Some? ==> figures.plannedMs.value == |PlannedTriples(plants)|
    ensures figures.actualMs == |CountedTriples(plants, asOf)|
    ensures figures.equipmentCount == |EquipmentPairs(plants)|
    ensures figures.excludedSessionCount == |ExcludedPairs(plants)|
  {
    hide CountedTriples, PlannedTriples, EquipmentPairs, ExcludedPairs, PlantsResolved, AllPlantsReadable;
    hide ActualOverPlants, PlannedOverPlants, EquipmentOverPlants, ExcludedOverPlants;
    PlantsReadableIs(plants);
    ActualOverPlantsCounts(plants, asOf);
    EquipmentOverPlantsCounts(plants);
    if figures.plannedMs.Some? {
      PlannedOverPlantsCounts(plants);
    }
  }
}
