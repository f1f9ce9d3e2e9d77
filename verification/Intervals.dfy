/**
 * Half-open time intervals (dashboard-intervals.ts): merging, cutting, overlapping and
 * measuring them, and the stopped stretches of a work session.
 *
 * Every operation is stated against the plain set of instants its spans contain.
 */
module Intervals {
  import opened Results

  datatype Span = Span(start: int, end: int)

  // ----- the reference meaning: a list of spans is a set of instants

  ghost predicate Within(span: Span, x: int) {
    span.start <= x < span.end
  }

  ghost function Instants(span: Span): (r: set<int>)
    ensures forall x :: x in r <==> span.start <= x < span.end
  {
    set x {:trigger Within(span, x)} | span.start <= x < span.end && Within(span, x)
  }

  ghost function Points(spans: seq<Span>): set<int> {
    if spans == [] then {} else Points(spans[..|spans| - 1]) + Instants(spans[|spans| - 1])
  }

  /** Sorted, no empty span, and a real gap between neighbours. */
  ghost predicate Normal(spans: seq<Span>) {
    && (forall i :: 0 <= i < |spans| ==> spans[i].start < spans[i].end)
    && (forall i, j :: 0 <= i < j < |spans| ==> spans[i].end < spans[j].start)
  }

  lemma PointsPush(spans: seq<Span>, span: Span)
    ensures Points(spans + [span]) == Points(spans) + Instants(span)
  {
    assert (spans + [span])[..|spans|] == spans;
  }

  lemma {:induction false} PointsMember(spans: seq<Span>, x: int)
    ensures x in Points(spans) <==> exists i :: 0 <= i < |spans| && spans[i].start <= x < spans[i].end
  {
    if spans != [] {
      var front := spans[..|spans| - 1];
      PointsMember(front, x);
      assert forall i :: 0 <= i < |front| ==> front[i] == spans[i];
    }
  }

  lemma {:induction false} PointsJoin(a: seq<Span>, b: seq<Span>)
    ensures Points(a + b) == Points(a) + Points(b)
  {
    if b == [] {
      assert a + b == a;
    } else {
      PointsJoin(a, b[..|b| - 1]);
      assert a + b == (a + b[..|b| - 1]) + [b[|b| - 1]];
      PointsPush(a + b[..|b| - 1], b[|b| - 1]);
    }
  }

  // ----- the length of a span list is the number of instants in it

  lemma {:induction false} InstantsSize(span: Span)
    requires span.start <= span.end
    ensures |Instants(span)| == span.end - span.start
    decreases span.end - span.start
  {
    if span.start == span.end {
      assert Instants(span) == {};
    } else {
      var shorter := Span(span.start, span.end - 1);
      InstantsSize(shorter);
      assert Instants(span) == Instants(shorter) + {span.end - 1};
    }
  }

  ghost function LengthSum(spans: seq<Span>): int {
    if spans == [] then 0
    else LengthSum(spans[..|spans| - 1]) + (spans[|spans| - 1].end - spans[|spans| - 1].start)
  }

  /** Adding up the lengths of a normal list counts each instant exactly once. */
  lemma {:induction false} LengthSumCountsInstants(spans: seq<Span>)
    requires Normal(spans)
    ensures LengthSum(spans) == |Points(spans)|
  {
    if spans != [] {
      var front, last := spans[..|spans| - 1], spans[|spans| - 1];
      LengthSumCountsInstants(front);
      InstantsSize(last);
      forall x | x in Points(front) ensures x !in Instants(last) {
        PointsMember(front, x);
      }
      assert Points(front) !! Instants(last);
    }
  }

  // ----- the normal form is unique

  lemma NormalHead(a: seq<Span>, b: seq<Span>)
    requires Normal(a) && Normal(b) && Points(a) == Points(b) && a != []
    ensures b != [] && a[0].start >= b[0].start
  {
    PointsMember(a, a[0].start);
    PointsMember(b, a[0].start);
    var i :| 0 <= i < |b| && b[i].start <= a[0].start < b[i].end;
    assert i > 0 ==> b[0].end < b[i].start;
  }

  lemma NormalHeadEnd(a: seq<Span>, b: seq<Span>)
    requires Normal(a) && Normal(b) && Points(a) == Points(b) && a != [] && b != []
    requires a[0].start == b[0].start
    ensures a[0].end >= b[0].end
  {
    PointsMember(b, a[0].end);
    PointsMember(a, a[0].end);
    forall i | 0 <= i < |a| ensures !(a[i].start <= a[0].end < a[i].end) {
      assert i > 0 ==> a[0].end < a[i].start;
    }
  }

  lemma PointsHead(a: seq<Span>)
    requires a != []
    ensures Points(a) == Instants(a[0]) + Points(a[1..])
  {
    PointsJoin([a[0]], a[1..]);
    assert a == [a[0]] + a[1..];
    PointsPush([], a[0]);
    assert [] + [a[0]] == [a[0]];
  }

  lemma PointsTail(a: seq<Span>)
    requires Normal(a) && a != []
    ensures Normal(a[1..]) && Points(a[1..]) == Points(a) - Instants(a[0])
  {
    PointsHead(a);
    forall x | x in Points(a[1..]) ensures x !in Instants(a[0]) {
      PointsMember(a[1..], x);
    }
    hide Points, Instants;
  }

  /** Two normal lists with the same instants are the same list. */
  lemma {:induction false} NormalFormIsUnique(a: seq<Span>, b: seq<Span>)
    requires Normal(a) && Normal(b) && Points(a) == Points(b)
    ensures a == b
  {
    if a == [] {
      if b != [] { NormalHead(b, a); }
    } else {
      NormalHead(a, b);
      NormalHead(b, a);
      NormalHeadEnd(a, b);
      NormalHeadEnd(b, a);
      PointsTail(a);
      PointsTail(b);
      NormalFormIsUnique(a[1..], b[1..]);
      assert a == [a[0]] + a[1..] && b == [b[0]] + b[1..];
    }
  }

  // ----- the stable sort the loops rely on

  ghost predicate SortedBy<T(!new)>(s: seq<T>, key: T -> int) {
    forall i, j :: 0 <= i < j < |s| ==> key(s[i]) <= key(s[j])
  }

  function Insert<T>(x: T, s: seq<T>, key: T -> int): seq<T> {
    if s == [] || key(x) <= key(s[0]) then [x] + s else [s[0]] + Insert(x, s[1..], key)
  }

  /** Array.prototype.sort on one numeric key: ascending, equal keys keep their order. */
  function StableSort<T>(s: seq<T>, key: T -> int): seq<T> {
    if s == [] then [] else Insert(s[0], StableSort(s[1..], key), key)
  }

  lemma {:induction false} InsertKeeps<T(!new)>(x: T, s: seq<T>, key: T -> int)
    ensures forall v :: v in Insert(x, s, key) <==> v == x || v in s
  {
    if s == [] || key(x) <= key(s[0]) {
    } else {
      InsertKeeps(x, s[1..], key);
    }
  }

  lemma {:induction false} InsertSorts<T(!new)>(x: T, s: seq<T>, key: T -> int)
    requires SortedBy(s, key)
    ensures SortedBy(Insert(x, s, key), key)
  {
    if s == [] || key(x) <= key(s[0]) {
    } else {
      InsertSorts(x, s[1..], key);
      var rest := Insert(x, s[1..], key);
      InsertKeeps(x, s[1..], key);
      forall i | 0 <= i < |rest| ensures key(s[0]) <= key(rest[i]) {
        assert rest[i] in rest;
      }
    }
  }

  lemma {:induction false} StableSortSorts<T(!new)>(s: seq<T>, key: T -> int)
    ensures SortedBy(StableSort(s, key), key)
    ensures forall v :: v in StableSort(s, key) <==> v in s
  {
    if s != [] {
      StableSortSorts(s[1..], key);
      InsertSorts(s[0], StableSort(s[1..], key), key);
      InsertKeeps(s[0], StableSort(s[1..], key), key);
    }
  }

  lemma PointsSameElements(a: seq<Span>, b: seq<Span>)
    requires forall s :: s in a && s.start < s.end <==> s in b && s.start < s.end
    ensures Points(a) == Points(b)
  {
    forall x ensures x in Points(a) <==> x in Points(b) {
      PointsMember(a, x);
      PointsMember(b, x);
      if i :| 0 <= i < |a| && a[i].start <= x < a[i].end { assert a[i] in b; }
      if i :| 0 <= i < |b| && b[i].start <= x < b[i].end { assert b[i] in a; }
    }
  }

  // ----- the operations

  function Clip(span: Span, range: Span): (r: Option<Span>)
    ensures match r
            case Some(c) => c.start < c.end && Instants(c) == Instants(span) * Instants(range)
            case None => Instants(span) * Instants(range) == {}
  {
    var start := Max(span.start, range.start);
    var end := Min(span.end, range.end);
    if start < end then Some(Span(start, end)) else None
  }

  function NonEmpty(spans: seq<Span>): (r: seq<Span>)
    ensures forall s :: s in r <==> s in spans && s.start < s.end
  {
    if spans == [] then []
    else if spans[0].start < spans[0].end then [spans[0]] + NonEmpty(spans[1..])
    else NonEmpty(spans[1..])
  }

  /** The spans union works on: empty ones dropped, ascending by start. */
  method Sorted(spans: seq<Span>) returns (sorted: seq<Span>)
    ensures forall k :: 0 <= k < |sorted| ==> sorted[k].start < sorted[k].end
    ensures forall i, j :: 0 <= i < j < |sorted| ==> sorted[i].start <= sorted[j].start
    ensures Points(sorted) == Points(spans)
  {
    var byStart := (s: Span) => s.start;
    sorted := StableSort(NonEmpty(spans), byStart);
    StableSortSorts(NonEmpty(spans), byStart);
    PointsSameElements(sorted, spans);
    forall i, j | 0 <= i < j < |sorted| ensures sorted[i].start <= sorted[j].start {
      assert byStart(sorted[i]) <= byStart(sorted[j]);
    }
    forall k | 0 <= k < |sorted| ensures sorted[k].start < sorted[k].end {
      assert sorted[k] in sorted;
    }
  }

  lemma PointsJoinLast(merged: seq<Span>, span: Span, joined: Span)
    requires merged != []
    requires merged[|merged| - 1].start <= span.start <= merged[|merged| - 1].end
    requires span.start < span.end
    requires joined == Span(merged[|merged| - 1].start, Max(merged[|merged| - 1].end, span.end))
    ensures Points(merged[..|merged| - 1] + [joined]) == Points(merged) + Instants(span)
  {
    var last := merged[|merged| - 1];
    assert Instants(joined) == Instants(last) + Instants(span);
    PointsPush(merged[..|merged| - 1], joined);
  }

  /** One step of the merging loop: join the last span when it is reached, else start a new one. */
  method MergeOne(merged: seq<Span>, span: Span) returns (r: seq<Span>)
    requires Normal(merged) && span.start < span.end
    requires merged != [] ==> merged[|merged| - 1].start <= span.start
    ensures Normal(r) && r != [] && r[|r| - 1].start <= span.start
    ensures Points(r) == Points(merged) + Instants(span)
  {
    if merged != [] && span.start <= merged[|merged| - 1].end {
      var last := merged[|merged| - 1];
      var joined := Span(last.start, Max(last.end, span.end));
      PointsJoinLast(merged, span, joined);
      r := merged[..|merged| - 1] + [joined];
    } else {
      PointsPush(merged, span);
      r := merged + [span];
    }
  }

  method Union(spans: seq<Span>) returns (merged: seq<Span>)
    ensures Normal(merged)
    ensures Points(merged) == Points(spans)
  {
    var sorted := Sorted(spans);
    merged := [];
    for k := 0 to |sorted|
      invariant Normal(merged)
      invariant Points(merged) == Points(sorted[..k])
      invariant merged != [] && k < |sorted| ==> merged[|merged| - 1].start <= sorted[k].start
    {
      assert sorted[..k + 1] == sorted[..k] + [sorted[k]];
      PointsPush(sorted[..k], sorted[k]);
      merged := MergeOne(merged, sorted[k]);
    }
    assert sorted[..|sorted|] == sorted;
  }

  /**
   * Part of one span decided so far: before `start`, exactly the instants outside every blade are
   * kept; from `start` on, none of the blades seen so far reaches in.
   */
  ghost predicate CutState(span: Span, start: int, blades: set<int>, seen: set<int>,
                           before: set<int>, kept: set<int>)
  {
    && span.start <= start
    && (forall x :: start <= x < span.end ==> x !in seen)
    && (forall x :: x in kept <==>
          x in before || (span.start <= x < start && x < span.end && x !in blades))
  }

  lemma BladeAfter(blades: seq<Span>, j: nat, x: int)
    requires Normal(blades) && j < |blades|
    requires x !in Points(blades[..j]) && x < blades[j].start
    ensures x !in Points(blades)
  {
    PointsMember(blades, x);
    PointsMember(blades[..j], x);
    forall i | 0 <= i < |blades| ensures !(blades[i].start <= x < blades[i].end) {
      if i < j {
        assert blades[..j][i] == blades[i];
      } else if i > j {
        assert blades[j].end < blades[i].start;
      }
    }
  }

  /** One blade reaching into the undecided part decides everything before its end. */
  lemma BladeCuts(span: Span, start: int, blades: seq<Span>, j: nat, before: set<int>, kept: set<int>)
    requires Normal(blades) && j < |blades|
    requires CutState(span, start, Points(blades), Points(blades[..j]), before, kept)
    requires blades[j].end > start && blades[j].start < span.end
    ensures CutState(span, blades[j].end, Points(blades), Points(blades[..j]) + Instants(blades[j]), before,
                     kept + Instants(Span(start, blades[j].start)))
  {
    forall x | start <= x < span.end && x < blades[j].start ensures x !in Points(blades) {
      BladeAfter(blades, j, x);
    }
    forall x | x in Instants(blades[j]) ensures x in Points(blades) {
      PointsMember(blades, x);
    }
  }

  /** Keeps the piece from `start` up to `stop`, if there is one. */
  method KeepPiece(kept: seq<Span>, start: int, stop: int) returns (r: seq<Span>)
    requires Normal(kept) && forall k :: k in kept ==> k.end < start
    ensures Normal(r) && forall k :: k in r ==> k in kept || k == Span(start, stop)
    ensures Points(r) == Points(kept) + Instants(Span(start, stop))
  {
    PointsPush(kept, Span(start, stop));
    r := kept;
    if start < stop {
      r := kept + [Span(start, stop)];
    } else {
      assert Instants(Span(start, stop)) == {};
    }
  }

  method CutSpan(span: Span, blades: seq<Span>, before: seq<Span>) returns (result: seq<Span>)
    requires Normal(blades) && Normal(before) && span.start < span.end
    requires forall r :: r in before ==> r.end < span.start
    ensures Normal(result)
    ensures forall r :: r in result ==> r.end <= span.end
    ensures Points(result) == Points(before) + (Instants(span) - Points(blades))
  {
    result := before;
    var start := span.start;
    for j := 0 to |blades|
      invariant Normal(result)
      invariant forall r :: r in result ==> r.end < start && r.end <= span.end
      invariant CutState(span, start, Points(blades), Points(blades[..j]), Points(before), Points(result))
    {
      var cut := blades[j];
      assert blades[..j + 1] == blades[..j] + [cut];
      PointsPush(blades[..j], cut);
      if cut.end <= start || cut.start >= span.end {
        continue;
      }
      BladeCuts(span, start, blades, j, Points(before), Points(result));
      result := KeepPiece(result, start, cut.start);
      start := Max(start, cut.end);
    }
    assert blades[..|blades|] == blades;
    CutDone(span, start, Points(blades), Points(before), Points(result));
    result := KeepPiece(result, start, span.end);
  }

  lemma CutDone(span: Span, start: int, blades: set<int>, before: set<int>, kept: set<int>)
    requires CutState(span, start, blades, blades, before, kept)
    ensures kept + Instants(Span(start, span.end)) == before + (Instants(span) - blades)
  {
  }

  lemma CutsAddUp(a: set<int>, b: set<int>, cuts: set<int>)
    ensures (a - cuts) + (b - cuts) == (a + b) - cuts
  {
  }

  method Subtract(spans: seq<Span>, cuts: seq<Span>) returns (result: seq<Span>)
    ensures Normal(result)
    ensures Points(result) == Points(spans) - Points(cuts)
  {
    var blades := Union(cuts);
    result := [];
    var whole := Union(spans);
    for i := 0 to |whole|
      invariant Normal(result)
      invariant forall r :: r in result ==> i > 0 && r.end <= whole[i - 1].end
      invariant Points(result) == Points(whole[..i]) - Points(blades)
    {
      assert i > 0 ==> whole[i - 1].end < whole[i].start;
      assert whole[..i + 1] == whole[..i] + [whole[i]];
      PointsPush(whole[..i], whole[i]);
      CutsAddUp(Points(whole[..i]), Instants(whole[i]), Points(blades));
      result := CutSpan(whole[i], blades, result);
    }
    assert whole[..|whole|] == whole;
  }

  method Intersect(spans: seq<Span>, mask: seq<Span>) returns (result: seq<Span>)
    ensures Normal(result)
    ensures Points(result) == Points(spans) * Points(mask)
  {
    var outside := Subtract(spans, mask);
    result := Subtract(spans, outside);
  }

  method TotalLength(spans: seq<Span>) returns (total: nat)
    ensures total == |Points(spans)|
  {
    var merged := Union(spans);
    var sum := 0;
    for k := 0 to |merged|
      invariant sum == LengthSum(merged[..k])
    {
      assert merged[..k + 1][..k] == merged[..k];
      sum := sum + (merged[k].end - merged[k].start);
    }
    assert merged[..|merged|] == merged;
    LengthSumCountsInstants(merged);
    total := sum;
  }

  lemma SplitSize(a: set<int>, b: set<int>)
    ensures |a| == |a - b| + |a * b|
  {
    assert a == (a - b) + (a * b);
  }

  /** Cutting loses exactly what overlaps, whatever the spans: nothing is counted twice or dropped. */
  method CutAndOverlapAddUp(a: seq<Span>, b: seq<Span>) returns (whole: int, cut: int, overlap: int)
    ensures whole == cut + overlap
    ensures whole == |Points(a)| && cut == |Points(a) - Points(b)| && overlap == |Points(a) * Points(b)|
  {
    hide Points, Normal;
    var difference := Subtract(a, b);
    var common := Intersect(a, b);
    whole := TotalLength(a);
    cut := TotalLength(difference);
    overlap := TotalLength(common);
    SplitSize(Points(a), Points(b));
  }

  // ----- stopped stretches of a session

  datatype EventType = STOP | RESUME | OTHER
  datatype SessionEvent = SessionEvent(eventType: EventType, occurredAt: int)

  ghost predicate Counts(e: SessionEvent, x: int) {
    e.eventType != OTHER && e.occurredAt <= x
  }

  /**
   * The stop or resume in force at x, whatever order the events are listed in:
   * the latest one no later than x, and of several at one time the one listed last.
   */
  ghost function LatestAt(events: seq<SessionEvent>, x: int): Option<SessionEvent> {
    if events == [] then None else Later(events[0], LatestAt(events[1..], x), x)
  }

  ghost function Later(e: SessionEvent, rest: Option<SessionEvent>, x: int): Option<SessionEvent> {
    if Counts(e, x) && (rest == None || e.occurredAt > rest.value.occurredAt) then Some(e) else rest
  }

  ghost predicate StoppedAt(events: seq<SessionEvent>, x: int) {
    var latest := LatestAt(events, x);
    latest.Some? && latest.value.eventType == STOP
  }

  /** Event i is in force at x: none that counts is later, or as late and listed after it. */
  ghost predicate InForce(events: seq<SessionEvent>, i: nat, x: int) {
    && i < |events| && Counts(events[i], x)
    && forall j :: 0 <= j < |events| && Counts(events[j], x) ==>
         events[j].occurredAt < events[i].occurredAt || (events[j].occurredAt == events[i].occurredAt && j <= i)
  }

  /** The fold finds exactly the event in force, whatever the order of the list. */
  lemma {:induction false} LatestIsInForce(events: seq<SessionEvent>, x: int)
    ensures LatestAt(events, x) == None <==> forall j :: 0 <= j < |events| ==> !Counts(events[j], x)
    ensures LatestAt(events, x).Some? ==>
              exists i: nat :: InForce(events, i, x) && events[i] == LatestAt(events, x).value
  {
    if events != [] {
      var tail := events[1..];
      LatestIsInForce(tail, x);
      assert forall j :: 0 < j < |events| ==> events[j] == tail[j - 1];
      if LatestAt(tail, x).Some? {
        var i: nat :| InForce(tail, i, x) && tail[i] == LatestAt(tail, x).value;
        if LatestAt(events, x) == LatestAt(tail, x) {
          assert InForce(events, i + 1, x);
        } else {
          assert InForce(events, 0, x);
        }
      } else if Counts(events[0], x) {
        assert InForce(events, 0, x);
      }
    }
  }

  lemma {:induction false} LatestInsert(e: SessionEvent, s: seq<SessionEvent>, key: SessionEvent -> int, x: int)
    requires forall v :: key(v) == v.occurredAt
    ensures LatestAt(Insert(e, s, key), x) == Later(e, LatestAt(s, x), x)
  {
    if s == [] || key(e) <= key(s[0]) {
      assert ([e] + s)[1..] == s;
    } else {
      LatestInsert(e, s[1..], key, x);
      assert ([s[0]] + Insert(e, s[1..], key))[1..] == Insert(e, s[1..], key);
    }
  }

  /** Sorting by time, ties kept in order, does not change what is in force at any instant. */
  lemma {:induction false} LatestSorted(events: seq<SessionEvent>, key: SessionEvent -> int, x: int)
    requires forall v :: key(v) == v.occurredAt
    ensures LatestAt(StableSort(events, key), x) == LatestAt(events, x)
  {
    if events != [] {
      LatestSorted(events[1..], key, x);
      LatestInsert(events[0], StableSort(events[1..], key), key, x);
    }
  }

  lemma {:induction false} LatestAppend(s: seq<SessionEvent>, e: SessionEvent, x: int)
    requires forall v :: v in s ==> v.occurredAt <= e.occurredAt
    ensures LatestAt(s + [e], x) == if Counts(e, x) then Some(e) else LatestAt(s, x)
  {
    if s == [] {
      assert s + [e] == [e];
      assert LatestAt([e][1..], x) == None;
    } else {
      LatestAppend(s[1..], e, x);
      assert (s + [e])[1..] == s[1..] + [e];
    }
  }

  /** What the loop has settled after a prefix of the events in time order. */
  ghost predicate Settled(prefix: seq<SessionEvent>, stoppedAt: Option<int>, closed: set<int>) {
    forall x :: StoppedAt(prefix, x) <==> x in closed || (stoppedAt.Some? && stoppedAt.value <= x)
  }

  lemma StoppedAppend(prefix: seq<SessionEvent>, event: SessionEvent, x: int)
    requires forall v :: v in prefix ==> v.occurredAt <= event.occurredAt
    ensures StoppedAt(prefix + [event], x) ==
            if Counts(event, x) then event.eventType == STOP else StoppedAt(prefix, x)
  {
    LatestAppend(prefix, event, x);
  }

  /** The loop body on the sets it works with. */
  lemma SettleEvent(prefix: seq<SessionEvent>, event: SessionEvent, stoppedAt: Option<int>, closed: set<int>,
                    stoppedAfter: Option<int>, closedAfter: set<int>)
    requires forall v :: v in prefix ==> v.occurredAt <= event.occurredAt
    requires Settled(prefix, stoppedAt, closed)
    requires forall x :: x in closed ==> x < event.occurredAt
    requires stoppedAt.Some? ==> stoppedAt.value <= event.occurredAt
    requires if event.eventType == STOP && stoppedAt == None then
               stoppedAfter == Some(event.occurredAt) && closedAfter == closed
             else if event.eventType == RESUME && stoppedAt.Some? then
               stoppedAfter == None && closedAfter == closed + Instants(Span(stoppedAt.value, event.occurredAt))
             else
               stoppedAfter == stoppedAt && closedAfter == closed
    ensures Settled(prefix + [event], stoppedAfter, closedAfter)
  {
    forall x ensures StoppedAt(prefix + [event], x) <==>
                     x in closedAfter || (stoppedAfter.Some? && stoppedAfter.value <= x) {
      StoppedAppend(prefix, event, x);
    }
  }

  method EventsByTime(events: seq<SessionEvent>) returns (sorted: seq<SessionEvent>)
    ensures forall i, j :: 0 <= i < j < |sorted| ==> sorted[i].occurredAt <= sorted[j].occurredAt
    ensures forall x :: StoppedAt(sorted, x) <==> StoppedAt(events, x)
  {
    var byTime := (e: SessionEvent) => e.occurredAt;
    sorted := StableSort(events, byTime);
    StableSortSorts(events, byTime);
    forall i, j | 0 <= i < j < |sorted| ensures sorted[i].occurredAt <= sorted[j].occurredAt {
      assert byTime(sorted[i]) <= byTime(sorted[j]);
    }
    forall x ensures StoppedAt(sorted, x) <==> StoppedAt(events, x) { LatestSorted(events, byTime, x); }
  }

  method StoppedSpans(events: seq<SessionEvent>, sessionEnd: int) returns (spans: seq<Span>)
    ensures forall x :: x < sessionEnd ==> (x in Points(spans) <==> StoppedAt(events, x))
  {
    var sorted := EventsByTime(events);
    spans := [];
    var stoppedAt: Option<int> := None;
    ghost var closed: set<int> := {};
    for k := 0 to |sorted|
      invariant closed == Points(spans)
      invariant Settled(sorted[..k], stoppedAt, closed)
      invariant k < |sorted| ==> forall x :: x in closed ==> x < sorted[k].occurredAt
      invariant stoppedAt.Some? && k < |sorted| ==> stoppedAt.value <= sorted[k].occurredAt
    {
      var event := sorted[k];
      assert sorted[..k + 1] == sorted[..k] + [event];
      ghost var stoppedBefore, closedBefore := stoppedAt, closed;
      if event.eventType == STOP && stoppedAt == None {
        stoppedAt := Some(event.occurredAt);
      }
      if event.eventType == RESUME && stoppedAt != None {
        PointsPush(spans, Span(stoppedAt.value, event.occurredAt));
        spans := spans + [Span(stoppedAt.value, event.occurredAt)];
        closed := closed + Instants(Span(stoppedAt.value, event.occurredAt));
        stoppedAt := None;
      }
      SettleEvent(sorted[..k], event, stoppedBefore, closedBefore, stoppedAt, closed);
    }
    assert sorted[..|sorted|] == sorted;
    if stoppedAt.Some? {
      PointsPush(spans, Span(stoppedAt.value, sessionEnd));
      spans := spans + [Span(stoppedAt.value, sessionEnd)];
    }
    forall x | x < sessionEnd ensures x in Points(spans) <==> StoppedAt(events, x) {
      assert StoppedAt(events, x) <==> StoppedAt(sorted, x);
    }
  }

  /** An instant of the session survives the cut exactly when the session is not stopped then. */
  method RunningSpans(started: int, ended: int, events: seq<SessionEvent>) returns (running: seq<Span>)
    ensures Normal(running)
    ensures forall x :: x in Points(running) <==> started <= x < ended && !StoppedAt(events, x)
  {
    var stopped := StoppedSpans(events, ended);
    running := Subtract([Span(started, ended)], stopped);
    PointsPush([], Span(started, ended));
    assert [] + [Span(started, ended)] == [Span(started, ended)];
  }
}
