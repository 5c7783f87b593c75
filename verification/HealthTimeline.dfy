/** client/src/components/Charts/HealthTimeline.tsx, `buildSegments`.  Instants are milliseconds. */
module HealthTimeline {
  import opened Common
  import opened StableSort

  datatype Range = Day | Week | Month

  datatype Health = Healthy | Unhealthy | Unknown

  /** A transition is to healthy or to unhealthy. */
  datatype Transition = Transition(time: int, healthy: bool)

  datatype Segment = Segment(state: Health, startTime: int, endTime: int, widthPercent: real)

  function RangeMs(range: Range): (ms: int)
    ensures ms > 0
  {
    match range
    case Day => 24 * 60 * 60 * 1000
    case Week => 7 * 24 * 60 * 60 * 1000
    case Month => 30 * 24 * 60 * 60 * 1000
  }

  function StateOf(t: Transition): Health {
    if t.healthy then Healthy else Unhealthy
  }

  function Opposite(t: Transition): Health {
    if t.healthy then Unhealthy else Healthy
  }

  function Earlier(): (Transition, Transition) -> bool {
    (a: Transition, b: Transition) => a.time - b.time < 0
  }

  function Width(duration: int, rangeMs: int): real
    requires rangeMs > 0
  {
    duration as real / rangeMs as real * 100.0
  }

  // ---------------------------------------------------------------------------
  // What the segments must be
  // ---------------------------------------------------------------------------

  /** The segments are non-empty and run without gap or overlap from `lo` to `hi`. */
  ghost predicate Tiles(segments: seq<Segment>, lo: int, hi: int) {
    && (forall i :: 0 <= i < |segments| ==> segments[i].startTime < segments[i].endTime)
    && (forall i :: 0 <= i < |segments| - 1 ==> segments[i].endTime == segments[i + 1].startTime)
    && (if segments == [] then lo == hi else segments[0].startTime == lo && segments[|segments| - 1].endTime == hi)
  }

  /** The state at an instant: of the last transition at or before it, else the opposite of the first one. */
  ghost function StateAt(sorted: seq<Transition>, instant: int): Health
    requires sorted != []
  {
    LastState(sorted, instant, Opposite(sorted[0]))
  }

  ghost function LastState(sorted: seq<Transition>, instant: int, initial: Health): Health {
    if sorted == [] then initial
    else
      var last := sorted[|sorted| - 1];
      if last.time <= instant then StateOf(last) else LastState(sorted[..|sorted| - 1], instant, initial)
  }

  /** Every instant of every segment has the segment's state. */
  ghost predicate ShowsStates(segments: seq<Segment>, sorted: seq<Transition>)
    requires sorted != []
  {
    forall i, x :: 0 <= i < |segments| && segments[i].startTime <= x < segments[i].endTime ==>
      segments[i].state == StateAt(sorted, x)
  }

  ghost predicate WidthsMatch(segments: seq<Segment>, rangeMs: int)
    requires rangeMs > 0
  {
    forall i :: 0 <= i < |segments| ==>
      segments[i].widthPercent == Width(segments[i].endTime - segments[i].startTime, rangeMs)
  }

  // ---------------------------------------------------------------------------
  // Building
  // ---------------------------------------------------------------------------

  /** `currentState` is the server's text; anything but the two known states is unknown. */
  function CurrentHealth(currentState: string): Health {
    if currentState == "healthy" then Healthy else if currentState == "unhealthy" then Unhealthy else Unknown
  }

  method BuildSegments(transitions: seq<Transition>, currentState: string, range: Range, now: int)
    returns (segments: seq<Segment>)
    ensures Tiles(segments, now - RangeMs(range), now)
    ensures WidthsMatch(segments, RangeMs(range))
    ensures transitions != [] ==> ShowsStates(segments, Sort(Earlier(), transitions))
    ensures transitions == [] ==> |segments| == 1 && segments[0].state == CurrentHealth(currentState)
  {
    hide Width, CurrentHealth, ShowsStates;
    var rangeMs := RangeMs(range);
    var rangeStart := now - rangeMs;
    if |transitions| == 0 {
      WholeRange(rangeMs);
      return [Segment(CurrentHealth(currentState), rangeStart, now, 100.0)];
    }
    SortSorted(Earlier(), transitions);
    segments := BuildFromSorted(Sort(Earlier(), transitions), rangeStart, now, rangeMs);
  }

  /** The loop over the sorted transitions. */
  method BuildFromSorted(sorted: seq<Transition>, rangeStart: int, now: int, rangeMs: int)
    returns (segments: seq<Segment>)
    requires sorted != [] && Sorted(Earlier(), sorted) && rangeStart < now && rangeMs > 0
    ensures Tiles(segments, rangeStart, now) && WidthsMatch(segments, rangeMs) && ShowsStates(segments, sorted)
  {
    hide Width, ShowsStates, Tiles, WidthsMatch, SeenState, Sorted;
    segments := [];
    var state := Opposite(sorted[0]);
    var start := rangeStart;
    var i := 0;
    NoSegments(sorted, rangeStart, rangeMs);
    NothingSeen(sorted, rangeStart);
    while i < |sorted|
      invariant 0 <= i <= |sorted| && rangeStart <= start <= now
      invariant Tiles(segments, rangeStart, start) && WidthsMatch(segments, rangeMs) && ShowsStates(segments, sorted)
      invariant state == SeenState(sorted, i, start)
      invariant forall k :: 0 <= k < i ==> sorted[k].time <= start
      invariant start == rangeStart || (i > 0 && sorted[i - 1].time == start)
    {
      var t := sorted[i];
      NextInOrder(sorted, i);
      if t.time < rangeStart {
        SeenNext(sorted, i, start);
        state := StateOf(t);
        i := i + 1;
        continue;
      }
      if t.time > now {
        break;
      }
      if t.time > start {
        segments := CloseSegment(segments, state, start, t.time, sorted, i, rangeStart, rangeMs);
      }
      SeenNext(sorted, i, t.time);
      state := StateOf(t);
      start := t.time;
      i := i + 1;
    }
    if now - start > 0 {
      segments := CloseSegment(segments, state, start, now, sorted, i, rangeStart, rangeMs);
    }
  }

  /** Push the segment from `start` to `end`. */
  method CloseSegment(
    segments: seq<Segment>, state: Health, start: int, end: int, ghost sorted: seq<Transition>, ghost i: nat,
    ghost rangeStart: int, rangeMs: int) returns (longer: seq<Segment>)
    requires sorted != [] && Sorted(Earlier(), sorted) && i <= |sorted| && start < end && rangeMs > 0
    requires Tiles(segments, rangeStart, start) && WidthsMatch(segments, rangeMs) && ShowsStates(segments, sorted)
    requires state == SeenState(sorted, i, start) && forall k :: 0 <= k < i ==> sorted[k].time <= start
    requires i < |sorted| ==> sorted[i].time >= end
    ensures Tiles(longer, rangeStart, end) && WidthsMatch(longer, rangeMs) && ShowsStates(longer, sorted)
  {
    hide Width, ShowsStates, Tiles, WidthsMatch, StateAt, SeenState;
    StateUntil(sorted, i, start, end);
    var closed := Segment(state, start, end, Width(end - start, rangeMs));
    OneMore(segments, closed, sorted, rangeStart, rangeMs);
    longer := segments + [closed];
  }

  /** The state the first `i` transitions lead to. */
  ghost function SeenState(sorted: seq<Transition>, i: nat, instant: int): Health
    requires sorted != [] && i <= |sorted|
  {
    LastState(sorted[..i], instant, Opposite(sorted[0]))
  }

  lemma NothingSeen(sorted: seq<Transition>, instant: int)
    requires sorted != []
    ensures SeenState(sorted, 0, instant) == Opposite(sorted[0])
  {
  }

  lemma SeenNext(sorted: seq<Transition>, i: nat, instant: int)
    requires i < |sorted| && sorted[i].time <= instant
    ensures SeenState(sorted, i + 1, instant) == StateOf(sorted[i])
  {
  }

  lemma NextInOrder(sorted: seq<Transition>, i: nat)
    requires Sorted(Earlier(), sorted) && i < |sorted|
    ensures i > 0 ==> sorted[i - 1].time <= sorted[i].time
  {
    assert i > 0 ==> !Earlier()(sorted[i], sorted[i - 1]);
  }

  lemma NoSegments(sorted: seq<Transition>, lo: int, rangeMs: int)
    requires rangeMs > 0 && sorted != []
    ensures Tiles([], lo, lo) && WidthsMatch([], rangeMs) && ShowsStates([], sorted)
  {
  }

  lemma RatioToItself(r: real)
    requires r > 0.0
    ensures r / r == 1.0
  {
  }

  lemma WholeRange(rangeMs: int)
    requires rangeMs > 0
    ensures Width(rangeMs, rangeMs) == 100.0
  {
    RatioToItself(rangeMs as real);
  }

  lemma {:induction false} LaterDoNotMatter(sorted: seq<Transition>, i: nat, x: int, initial: Health)
    requires i <= |sorted| && forall k :: i <= k < |sorted| ==> sorted[k].time > x
    ensures LastState(sorted, x, initial) == LastState(sorted[..i], x, initial)
    decreases |sorted|
  {
    if |sorted| == i {
      assert sorted[..i] == sorted;
    } else {
      var init := sorted[..|sorted| - 1];
      LaterDoNotMatter(init, i, x, initial);
      assert init[..i] == sorted[..i];
    }
  }

  /** Between the transitions seen so far and the next one the state does not change. */
  lemma StateUntil(sorted: seq<Transition>, i: nat, start: int, end: int)
    requires sorted != [] && i <= |sorted| && Sorted(Earlier(), sorted)
    requires forall k :: 0 <= k < i ==> sorted[k].time <= start
    requires i < |sorted| ==> sorted[i].time >= end
    ensures forall x :: start <= x < end ==> StateAt(sorted, x) == SeenState(sorted, i, start)
  {
    forall x | start <= x < end ensures StateAt(sorted, x) == SeenState(sorted, i, start) {
      forall k | i <= k < |sorted| ensures sorted[k].time > x {
        assert k > i ==> !Earlier()(sorted[k], sorted[i]);
      }
      LaterDoNotMatter(sorted, i, x, Opposite(sorted[0]));
    }
  }

  /** One more segment at the end. */
  lemma OneMore(segments: seq<Segment>, next: Segment, sorted: seq<Transition>, lo: int, rangeMs: int)
    requires sorted != [] && rangeMs > 0 && Tiles(segments, lo, next.startTime) && next.startTime < next.endTime
    requires WidthsMatch(segments, rangeMs) && next.widthPercent == Width(next.endTime - next.startTime, rangeMs)
    requires ShowsStates(segments, sorted)
    requires forall x :: next.startTime <= x < next.endTime ==> StateAt(sorted, x) == next.state
    ensures Tiles(segments + [next], lo, next.endTime) && WidthsMatch(segments + [next], rangeMs)
    ensures ShowsStates(segments + [next], sorted)
  {
    hide Width, StateAt;
  }

  // ---------------------------------------------------------------------------
  // Consequences of tiling
  // ---------------------------------------------------------------------------

  ghost function TotalDuration(segments: seq<Segment>): int {
    if segments == [] then 0
    else
      var last := segments[|segments| - 1];
      TotalDuration(segments[..|segments| - 1]) + (last.endTime - last.startTime)
  }

  ghost function TotalWidth(segments: seq<Segment>): real {
    if segments == [] then 0.0
    else TotalWidth(segments[..|segments| - 1]) + segments[|segments| - 1].widthPercent
  }

  /** The durations of a tiling sum to the range. */
  lemma {:induction false} DurationsSumToRange(segments: seq<Segment>, lo: int, hi: int)
    requires Tiles(segments, lo, hi)
    ensures TotalDuration(segments) == hi - lo
  {
    if segments != [] {
      var last := segments[|segments| - 1];
      DurationsSumToRange(segments[..|segments| - 1], lo, last.startTime);
    }
  }

  lemma WidthAdds(a: int, b: int, rangeMs: int)
    requires rangeMs > 0
    ensures Width(a, rangeMs) + Width(b, rangeMs) == Width(a + b, rangeMs)
  {
    assert (a + b) as real == a as real + b as real;
  }

  lemma {:induction false} WidthsAreDurations(segments: seq<Segment>, rangeMs: int)
    requires rangeMs > 0 && WidthsMatch(segments, rangeMs)
    ensures TotalWidth(segments) == Width(TotalDuration(segments), rangeMs)
  {
    hide Width;
    if segments == [] {
      WidthAdds(0, 0, rangeMs);
    } else {
      var last := segments[|segments| - 1];
      WidthsAreDurations(segments[..|segments| - 1], rangeMs);
      WidthAdds(TotalDuration(segments[..|segments| - 1]), last.endTime - last.startTime, rangeMs);
    }
  }

  /** The widths of the built segments sum to 100. */
  lemma WidthsSumTo100(segments: seq<Segment>, range: Range, now: int)
    requires Tiles(segments, now - RangeMs(range), now) && WidthsMatch(segments, RangeMs(range))
    ensures TotalWidth(segments) == 100.0
  {
    hide Width;
    DurationsSumToRange(segments, now - RangeMs(range), now);
    WidthsAreDurations(segments, RangeMs(range));
    WholeRange(RangeMs(range));
  }

  /** Every instant of a tiled range lies in exactly one segment. */
  lemma {:induction false} InstantInOneSegment(segments: seq<Segment>, lo: int, hi: int, x: int) returns (i: nat)
    requires Tiles(segments, lo, hi) && lo <= x < hi
    ensures i < |segments| && segments[i].startTime <= x < segments[i].endTime
    ensures forall j :: 0 <= j < |segments| && segments[j].startTime <= x < segments[j].endTime ==> j == i
  {
    var last := |segments| - 1;
    forall j | 0 <= j < last ensures segments[j].endTime <= segments[last].startTime {
      Ordered(segments, lo, hi, j, last);
    }
    if segments[last].startTime <= x {
      i := last;
    } else {
      i := InstantInOneSegment(segments[..last], lo, segments[last].startTime, x);
      assert forall j :: 0 <= j < last ==> segments[..last][j] == segments[j];
    }
  }

  lemma {:induction false} Ordered(segments: seq<Segment>, lo: int, hi: int, i: nat, j: nat)
    requires Tiles(segments, lo, hi) && i < j < |segments|
    ensures segments[i].endTime <= segments[j].startTime
  {
    if i < j - 1 {
      Ordered(segments, lo, hi, i, j - 1);
    }
  }

  // ---------------------------------------------------------------------------
  // The timeline told by the transitions as given
  // ---------------------------------------------------------------------------

  /** A day, a week and thirty days, in milliseconds; and a width is the share of the range, in percent. */
  lemma RangeInNumbers(range: Range, duration: int)
    ensures RangeMs(range) == match range { case Day => 86400000 case Week => 604800000 case Month => 2592000000 }
    ensures Width(duration, RangeMs(range)) * RangeMs(range) as real == 100.0 * duration as real
  {
  }

  /** Without transitions the whole range has the server's state, unknown unless it is one of the two. */
  lemma CurrentInWords(currentState: string)
    ensures CurrentHealth("healthy") == Healthy && CurrentHealth("unhealthy") == Unhealthy
    ensures currentState != "healthy" && currentState != "unhealthy" ==> CurrentHealth(currentState) == Unknown
  {
  }

  function AtTime(time: int): Transition -> bool {
    (t: Transition) => t.time == time
  }

  lemma {:induction false} FilterFirst<T>(p: T -> bool, xs: seq<T>, k: nat)
    requires k < |xs| && p(xs[k]) && forall j :: 0 <= j < k ==> !p(xs[j])
    ensures Filter(p, xs) != [] && Filter(p, xs)[0] == xs[k]
  {
    if k > 0 {
      FilterFirst(p, xs[1..], k - 1);
    }
  }

  lemma FilterLast<T>(p: T -> bool, xs: seq<T>, k: nat)
    requires k < |xs| && p(xs[k]) && forall j :: k < j < |xs| ==> !p(xs[j])
    ensures Filter(p, xs) != [] && Filter(p, xs)[|Filter(p, xs)| - 1] == xs[k]
  {
    assert xs == xs[..k + 1] + xs[k + 1..];
    FilterAppend(p, xs[..k + 1], xs[k + 1..]);
    FilterNone(p, xs[k + 1..]);
    FilterOneMore(p, xs, k);
  }

  lemma {:induction false} LastStateIs(sorted: seq<Transition>, k: nat, x: int, initial: Health)
    requires k < |sorted| && sorted[k].time <= x && forall j :: k < j < |sorted| ==> sorted[j].time > x
    ensures LastState(sorted, x, initial) == StateOf(sorted[k])
  {
    if k < |sorted| - 1 {
      LastStateIs(sorted[..|sorted| - 1], k, x, initial);
    }
  }

  lemma {:induction false} NoStateYet(sorted: seq<Transition>, x: int, initial: Health)
    requires forall j :: 0 <= j < |sorted| ==> sorted[j].time > x
    ensures LastState(sorted, x, initial) == initial
  {
    if sorted != [] {
      NoStateYet(sorted[..|sorted| - 1], x, initial);
    }
  }

  /** Where an element of the list stands once sorted. */
  lemma SortedPlace(transitions: seq<Transition>, i: nat) returns (k: nat)
    requires i < |transitions|
    ensures k < |transitions| && Sort(Earlier(), transitions)[k] == transitions[i]
  {
    var sorted := Sort(Earlier(), transitions);
    SortMembers(Earlier(), transitions);
    assert transitions[i] in sorted;
    k :| 0 <= k < |sorted| && sorted[k] == transitions[i];
  }

  lemma {:induction false} LastUntil(sorted: seq<Transition>, x: int, m: nat) returns (k: nat)
    requires m < |sorted| && sorted[m].time <= x
    ensures m <= k < |sorted| && sorted[k].time <= x && forall j :: k < j < |sorted| ==> sorted[j].time > x
  {
    k := |sorted| - 1;
    while sorted[k].time > x
      invariant m <= k < |sorted| && forall j :: k < j < |sorted| ==> sorted[j].time > x
      decreases k
    {
      k := k - 1;
    }
  }

  lemma InTimeOrder(transitions: seq<Transition>)
    ensures var sorted := Sort(Earlier(), transitions);
            forall k, l :: 0 <= k < l < |sorted| ==> sorted[k].time <= sorted[l].time
  {
    var sorted := Sort(Earlier(), transitions);
    SortSorted(Earlier(), transitions);
    forall k, l | 0 <= k < l < |sorted| ensures sorted[k].time <= sorted[l].time {
      assert !Earlier()(sorted[l], sorted[k]);
    }
  }

  /** Transition `i` is the latest at or before the instant, and of those at its time the last in the list. */
  ghost predicate LatestBy(transitions: seq<Transition>, i: nat, x: int) {
    && i < |transitions| && transitions[i].time <= x
    && forall j :: 0 <= j < |transitions| && transitions[j].time <= x ==>
         transitions[j].time < transitions[i].time || (transitions[j].time == transitions[i].time && j <= i)
  }

  /** Transition `i` is the earliest of all, and of those at its time the first in the list. */
  ghost predicate Earliest(transitions: seq<Transition>, i: nat) {
    && i < |transitions|
    && forall j :: 0 <= j < |transitions| ==>
         transitions[i].time < transitions[j].time || (transitions[i].time == transitions[j].time && i <= j)
  }

  lemma LatestInOrder(transitions: seq<Transition>, i: nat, x: int) returns (k: nat)
    requires LatestBy(transitions, i, x)
    ensures var sorted := Sort(Earlier(), transitions);
            && k < |sorted| && sorted[k].time == transitions[i].time
            && forall j :: k < j < |sorted| ==> sorted[j].time > x
  {
    var sorted := Sort(Earlier(), transitions);
    LatestIsIndex(transitions, i, x);
    hide *;
    InTimeOrder(transitions);
    var m := SortedPlace(transitions, i);
    k := LastUntil(sorted, x, m);
    SortedMember(transitions, k);
    LatestIsLatest(transitions, i, x, sorted[k]);
  }

  lemma SortedMember(transitions: seq<Transition>, k: nat)
    requires k < |transitions|
    ensures Sort(Earlier(), transitions)[k] in transitions
  {
    SortMembers(Earlier(), transitions);
  }

  lemma LatestIsIndex(transitions: seq<Transition>, i: nat, x: int)
    requires LatestBy(transitions, i, x)
    ensures i < |transitions| && transitions[i].time <= x
  {
  }

  lemma LatestIsLatest(transitions: seq<Transition>, i: nat, x: int, t: Transition)
    requires LatestBy(transitions, i, x) && t in transitions && t.time <= x
    ensures t.time <= transitions[i].time
  {
  }

  lemma LastOfItsTime(transitions: seq<Transition>, i: nat, x: int)
    requires LatestBy(transitions, i, x)
    ensures var tied := Filter(AtTime(transitions[i].time), transitions);
            tied != [] && tied[|tied| - 1] == transitions[i]
  {
    FilterLast(AtTime(transitions[i].time), transitions, i);
  }

  /** The timeline is healthy at an instant exactly when the latest transition by then was to healthy. */
  lemma StateOfLatest(transitions: seq<Transition>, i: nat, x: int)
    requires LatestBy(transitions, i, x)
    ensures StateAt(Sort(Earlier(), transitions), x) == if transitions[i].healthy then Healthy else Unhealthy
  {
    var sorted, time := Sort(Earlier(), transitions), transitions[i].time;
    LatestIsIndex(transitions, i, x);
    hide Sort, LastState, Filter, LatestBy;
    var k := LatestInOrder(transitions, i, x);
    LastStateIs(sorted, k, x, Opposite(sorted[0]));
    SortStable(Earlier(), transitions, AtTime(time));
    FilterLast(AtTime(time), sorted, k);
    LastOfItsTime(transitions, i, x);
  }

  /** Before the first transition it shows the opposite of what that one led to. */
  lemma StateBeforeAll(transitions: seq<Transition>, i: nat, x: int)
    requires Earliest(transitions, i) && x < transitions[i].time
    ensures StateAt(Sort(Earlier(), transitions), x) == if transitions[i].healthy then Unhealthy else Healthy
  {
    var sorted, time := Sort(Earlier(), transitions), transitions[i].time;
    InTimeOrder(transitions);
    SortMembers(Earlier(), transitions);
    var m := SortedPlace(transitions, i);
    assert sorted[0] in transitions;
    assert sorted[0].time == time;
    NoStateYet(sorted, x, Opposite(sorted[0]));
    SortStable(Earlier(), transitions, AtTime(time));
    FilterFirst(AtTime(time), sorted, 0);
    FilterFirst(AtTime(time), transitions, i);
  }

  /**
   * A built timeline at any instant of the range, told by the transitions as they were given, whatever their order:
   * the segment over the instant has the state of the latest transition by then, or the opposite of the earliest.
   */
  lemma TimelineInTransitions(transitions: seq<Transition>, segments: seq<Segment>, s: nat, x: int, i: nat)
    requires transitions != [] && ShowsStates(segments, Sort(Earlier(), transitions))
    requires s < |segments| && segments[s].startTime <= x < segments[s].endTime && i < |transitions|
    ensures LatestBy(transitions, i, x) ==>
      segments[s].state == if transitions[i].healthy then Healthy else Unhealthy
    ensures Earliest(transitions, i) && x < transitions[i].time ==>
      segments[s].state == if transitions[i].healthy then Unhealthy else Healthy
  {
    hide StateAt, LatestBy, Earliest;
    if LatestBy(transitions, i, x) {
      StateOfLatest(transitions, i, x);
    }
    if Earliest(transitions, i) && x < transitions[i].time {
      StateBeforeAll(transitions, i, x);
    }
  }
}
