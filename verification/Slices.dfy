/**
 Where a change's time went (src/changes.rs, `slices`): an interval divided among
 eight segments, exactly, in whole milliseconds.

 `SegmentAt` says what one millisecond is, with no sweep and no sort; `Slices` is the
 sweep over cuts, proved to give each segment as many milliseconds as are its own.
 */
module Slices {
  import opened Sorting
  import opened Wrappers

  datatype State =
    | Agent | Scheduling | Publication | ReviewWait | MergeQueue | ReleaseWait
    | AwaitingMerge  // checks settled, and nothing recorded says on whom it waits
    | Finished       // settled without landing

  datatype Segment = Agent | Scheduling | Gate | Publication | ReviewWait | MergeQueue | ReleaseWait | Other

  datatype Transition = Transition(at: nat, to: State)
  datatype Span = Span(from: nat, to: nat)

  function SegmentOf(now: Option<State>): Segment {
    match now
    case None => Segment.Other
    case Some(Agent) => Segment.Agent
    case Some(Scheduling) => Segment.Scheduling
    case Some(Publication) => Segment.Publication
    case Some(ReviewWait) => Segment.ReviewWait
    case Some(MergeQueue) => Segment.MergeQueue
    case Some(ReleaseWait) => Segment.ReleaseWait
    case Some(AwaitingMerge) => Segment.Other
    case Some(Finished) => Segment.Other
  }

  // ---- one millisecond ---------------------------------------------------

  ghost predicate Gated(gates: seq<Span>, t: nat) {
    exists i :: 0 <= i < |gates| && gates[i].from <= t < gates[i].to
  }

  /** The last transition at or before `t`: the latest stamped, and of those the last recorded. */
  function Latest(transitions: seq<Transition>, t: nat): Option<Transition> {
    if transitions == [] then None
    else
      var rest := Latest(transitions[1..], t);
      if transitions[0].at <= t && (rest.None? || rest.value.at < transitions[0].at) then Some(transitions[0]) else rest
  }

  ghost predicate IsLatest(transitions: seq<Transition>, t: nat, i: nat) {
    && i < |transitions| && transitions[i].at <= t
    && forall j :: 0 <= j < |transitions| && transitions[j].at <= t ==>
         transitions[j].at < transitions[i].at || (transitions[j].at == transitions[i].at && j <= i)
  }

  /** `Latest`, said by position: none only where nothing is stamped at or before `t`. */
  lemma {:induction false} LatestIsLatest(transitions: seq<Transition>, t: nat) returns (i: nat)
    ensures Latest(transitions, t).None? <==> forall j :: 0 <= j < |transitions| ==> transitions[j].at > t
    ensures Latest(transitions, t).Some? ==>
      IsLatest(transitions, t, i) && Latest(transitions, t).value == transitions[i]
  {
    i := 0;
    if transitions != [] {
      var rest := transitions[1..];
      var k := LatestIsLatest(rest, t);
      assert forall j :: 0 < j < |transitions| ==> transitions[j] == rest[j - 1];
      if Latest(transitions, t) == Latest(rest, t) && Latest(rest, t).Some? {
        i := k + 1;
      }
    }
  }

  function StateAt(transitions: seq<Transition>, t: nat): Option<State> {
    match Latest(transitions, t)
    case None => None
    case Some(transition) => Some(transition.to)
  }

  /** What one millisecond is: a gate's where a gate covers it, and otherwise what the change was doing. */
  ghost function SegmentAt(transitions: seq<Transition>, gates: seq<Span>, t: nat): Segment {
    if Gated(gates, t) then Segment.Gate else SegmentOf(StateAt(transitions, t))
  }

  /** How many milliseconds of `[from, end)` satisfy `holds`. */
  ghost function Millis(from: nat, end: nat, holds: nat -> bool): nat
    decreases end
  {
    if end <= from then 0 else Millis(from, end - 1, holds) + (if holds(end - 1) then 1 else 0)
  }

  lemma {:induction false} MillisJoin(from: nat, mid: nat, end: nat, holds: nat -> bool)
    requires from <= mid <= end
    ensures Millis(from, end, holds) == Millis(from, mid, holds) + Millis(mid, end, holds)
    decreases end
  {
    if end > mid {
      MillisJoin(from, mid, end - 1, holds);
    }
  }

  lemma {:induction false} MillisAll(from: nat, end: nat, holds: nat -> bool, always: bool)
    requires from <= end && forall t :: from <= t < end ==> holds(t) == always
    ensures Millis(from, end, holds) == if always then end - from else 0
    decreases end
  {
    if end > from {
      MillisAll(from, end - 1, holds, always);
    }
  }

  // ---- the cuts ----------------------------------------------------------

  ghost predicate Rising(cuts: seq<nat>) {
    forall i, j :: 0 <= i < j < |cuts| ==> cuts[i] < cuts[j]
  }

  function InsertOnce(x: nat, cuts: seq<nat>): (r: seq<nat>)
    requires Rising(cuts)
    ensures Rising(r)
    ensures forall y :: y in r <==> y == x || y in cuts
  {
    if cuts == [] || x < cuts[0] then [x] + cuts
    else if x == cuts[0] then cuts
    else
      var rest := InsertOnce(x, cuts[1..]);
      assert cuts == [cuts[0]] + cuts[1..];
      assert forall i :: 0 <= i < |rest| ==> rest[i] in rest;
      [cuts[0]] + rest
  }

  /** `sort_unstable` and `dedup`, of what lies in `[start, end]`. */
  function CutsOf(points: seq<nat>, start: nat, end: nat): (cuts: seq<nat>)
    ensures Rising(cuts)
    ensures forall y :: y in cuts <==> y in points && start <= y <= end
  {
    if points == [] then []
    else
      var rest := CutsOf(points[1..], start, end);
      assert points == [points[0]] + points[1..];
      if start <= points[0] <= end then InsertOnce(points[0], rest) else rest
  }

  function Stamps(transitions: seq<Transition>): (stamps: seq<nat>)
    ensures |stamps| == |transitions|
    ensures forall i :: 0 <= i < |stamps| ==> stamps[i] == transitions[i].at
  {
    if transitions == [] then [] else [transitions[0].at] + Stamps(transitions[1..])
  }

  function Bounds(gates: seq<Span>): (bounds: seq<nat>)
    ensures forall i :: 0 <= i < |gates| ==> gates[i].from in bounds && gates[i].to in bounds
  {
    if gates == [] then []
    else
      var rest := Bounds(gates[1..]);
      assert gates == [gates[0]] + gates[1..];
      [gates[0].from, gates[0].to] + rest
  }

  function StampOf(transition: Transition): nat {
    transition.at
  }

  // ---- the sorted transitions --------------------------------------------

  lemma {:induction false} InsertedLatest(x: Transition, sorted: seq<Transition>, t: nat)
    requires SortedBy(StampOf, sorted)
    ensures Latest(Insert(StampOf, x, sorted), t) == Latest([x] + sorted, t)
  {
    assert ([x] + sorted)[1..] == sorted;
    if sorted != [] && x.at > sorted[0].at {
      var rest := sorted[1..];
      InsertedLatest(x, rest, t);
      assert ([sorted[0]] + Insert(StampOf, x, rest))[1..] == Insert(StampOf, x, rest);
      assert ([x] + rest)[1..] == rest;
    }
  }

  /** Sorting, stably, moves no answer. */
  lemma {:induction false} SortedLatest(transitions: seq<Transition>, t: nat)
    ensures Latest(StableSort(StampOf, transitions), t) == Latest(transitions, t)
  {
    if transitions != [] {
      var rest := StableSort(StampOf, transitions[1..]);
      SortedLatest(transitions[1..], t);
      StableSorts(StampOf, transitions[1..]);
      InsertedLatest(transitions[0], rest, t);
      assert ([transitions[0]] + rest)[1..] == rest;
    }
  }

  /** In sorted transitions, the answer at `t` is the one before the first stamped past it. */
  lemma {:induction false} SweptLatest(sorted: seq<Transition>, next: nat, t: nat)
    requires SortedBy(StampOf, sorted) && next <= |sorted|
    requires forall k :: 0 <= k < next ==> sorted[k].at <= t
    requires forall k :: next <= k < |sorted| ==> sorted[k].at > t
    ensures Latest(sorted, t) == if next == 0 then None else Some(sorted[next - 1])
    decreases |sorted|
  {
    if sorted != [] {
      var rest := sorted[1..];
      if next > 0 {
        SweptLatest(rest, next - 1, t);
        assert next > 1 ==> sorted[0].at <= sorted[next - 1].at;
      } else {
        SweptLatest(rest, 0, t);
      }
    }
  }

  // ---- one slice ---------------------------------------------------------

  /** Whether no stamp and no bound falls strictly inside `(from, end)`. */
  ghost predicate Uncut(sorted: seq<Transition>, gates: seq<Span>, from: nat, end: nat) {
    && (forall k :: 0 <= k < |sorted| ==> sorted[k].at <= from || end <= sorted[k].at)
    && (forall i :: 0 <= i < |gates| ==> gates[i].from <= from || end <= gates[i].from)
    && (forall i :: 0 <= i < |gates| ==> gates[i].to <= from || end <= gates[i].to)
  }

  ghost predicate Covered(gates: seq<Span>, from: nat, end: nat) {
    exists i :: 0 <= i < |gates| && gates[i].from <= from && end <= gates[i].to
  }

  lemma CoveredIsGated(sorted: seq<Transition>, gates: seq<Span>, from: nat, end: nat, t: nat)
    requires Uncut(sorted, gates, from, end) && from <= t < end
    ensures Gated(gates, t) <==> Covered(gates, from, end)
  {
    if Covered(gates, from, end) {
      var i :| 0 <= i < |gates| && gates[i].from <= from && end <= gates[i].to;
      assert gates[i].from <= t < gates[i].to;
    }
    if Gated(gates, t) {
      var i :| 0 <= i < |gates| && gates[i].from <= t < gates[i].to;
      assert gates[i].from <= from && end <= gates[i].to;
    }
  }

  ghost function Of(transitions: seq<Transition>, gates: seq<Span>, segment: Segment): nat -> bool {
    (t: nat) => SegmentAt(transitions, gates, t) == segment
  }

  /** The ungated milliseconds a change spends in one state. */
  ghost function TimeIn(transitions: seq<Transition>, gates: seq<Span>, state: State): nat -> bool {
    (t: nat) => !Gated(gates, t) && StateAt(transitions, t) == Some(state)
  }

  ghost function InGate(gates: seq<Span>): nat -> bool {
    (t: nat) => Gated(gates, t)
  }

  /** The ungated milliseconds no segment names a state for: before any transition, awaiting a merge, and settled. */
  ghost function Unplaced(transitions: seq<Transition>, gates: seq<Span>): nat -> bool {
    (t: nat) =>
      !Gated(gates, t) && StateAt(transitions, t) in {None, Some(AwaitingMerge), Some(Finished)}
  }

  lemma {:induction false} MillisSame(from: nat, end: nat, a: nat -> bool, b: nat -> bool)
    requires forall t: nat :: from <= t < end ==> a(t) == b(t)
    ensures Millis(from, end, a) == Millis(from, end, b)
    decreases end
  {
    if end > from {
      MillisSame(from, end - 1, a, b);
    }
  }

  /** What a segment of its own state is: the ungated time spent in that state. */
  lemma SegmentIsState(
    transitions: seq<Transition>, gates: seq<Span>, start: nat, end: nat, segment: Segment, state: State
  )
    requires segment != Gate && forall now :: SegmentOf(now) == segment <==> now == Some(state)
    ensures Millis(start, end, Of(transitions, gates, segment)) == Millis(start, end, TimeIn(transitions, gates, state))
  {
    MillisSame(start, end, Of(transitions, gates, segment), TimeIn(transitions, gates, state));
  }

  lemma GateIsInGate(transitions: seq<Transition>, gates: seq<Span>, start: nat, end: nat)
    ensures Millis(start, end, Of(transitions, gates, Gate)) == Millis(start, end, InGate(gates))
  {
    MillisSame(start, end, Of(transitions, gates, Gate), InGate(gates));
  }

  lemma OtherIsUnplaced(transitions: seq<Transition>, gates: seq<Span>, start: nat, end: nat)
    ensures Millis(start, end, Of(transitions, gates, Other)) == Millis(start, end, Unplaced(transitions, gates))
  {
    MillisSame(start, end, Of(transitions, gates, Other), Unplaced(transitions, gates));
  }

  /** Which state each segment is the time of. */
  lemma SegmentsAreStates(transitions: seq<Transition>, gates: seq<Span>, start: nat, end: nat)
    ensures Millis(start, end, Of(transitions, gates, Gate)) == Millis(start, end, InGate(gates))
    ensures Millis(start, end, Of(transitions, gates, Segment.Agent))
         == Millis(start, end, TimeIn(transitions, gates, State.Agent))
    ensures Millis(start, end, Of(transitions, gates, Segment.Scheduling))
         == Millis(start, end, TimeIn(transitions, gates, State.Scheduling))
    ensures Millis(start, end, Of(transitions, gates, Segment.Publication))
         == Millis(start, end, TimeIn(transitions, gates, State.Publication))
    ensures Millis(start, end, Of(transitions, gates, Segment.ReviewWait))
         == Millis(start, end, TimeIn(transitions, gates, State.ReviewWait))
    ensures Millis(start, end, Of(transitions, gates, Segment.MergeQueue))
         == Millis(start, end, TimeIn(transitions, gates, State.MergeQueue))
    ensures Millis(start, end, Of(transitions, gates, Segment.ReleaseWait))
         == Millis(start, end, TimeIn(transitions, gates, State.ReleaseWait))
    ensures Millis(start, end, Of(transitions, gates, Other)) == Millis(start, end, Unplaced(transitions, gates))
  {
    GateIsInGate(transitions, gates, start, end);
    SegmentIsState(transitions, gates, start, end, Segment.Agent, State.Agent);
    SegmentIsState(transitions, gates, start, end, Segment.Scheduling, State.Scheduling);
    SegmentIsState(transitions, gates, start, end, Segment.Publication, State.Publication);
    SegmentIsState(transitions, gates, start, end, Segment.ReviewWait, State.ReviewWait);
    SegmentIsState(transitions, gates, start, end, Segment.MergeQueue, State.MergeQueue);
    SegmentIsState(transitions, gates, start, end, Segment.ReleaseWait, State.ReleaseWait);
    OtherIsUnplaced(transitions, gates, start, end);
  }

  /** A slice between two cuts is one segment's, whole. */
  lemma SliceIsOne(
    transitions: seq<Transition>, sorted: seq<Transition>, gates: seq<Span>, from: nat, end: nat, next: nat,
    now: Option<State>
  )
    requires sorted == StableSort(StampOf, transitions) && from < end && Uncut(sorted, gates, from, end)
    requires next <= |sorted| && forall k :: 0 <= k < next ==> sorted[k].at <= from
    requires next < |sorted| ==> sorted[next].at > from
    requires now == if next == 0 then None else Some(sorted[next - 1].to)
    ensures var segment := if Covered(gates, from, end) then Segment.Gate else SegmentOf(now);
      forall other :: Millis(from, end, Of(transitions, gates, other)) == if other == segment then end - from else 0
    ensures Millis(from, end, TimeIn(transitions, gates, AwaitingMerge))
         == if !Covered(gates, from, end) && now == Some(AwaitingMerge) then end - from else 0
  {
    StableSorts(StampOf, transitions);
    forall t | from <= t < end
      ensures StateAt(transitions, t) == now && (Gated(gates, t) <==> Covered(gates, from, end))
    {
      CoveredIsGated(sorted, gates, from, end, t);
      assert forall k :: next <= k < |sorted| ==> StampOf(sorted[next]) <= StampOf(sorted[k]);
      SweptLatest(sorted, next, t);
      SortedLatest(transitions, t);
    }
    var segment := if Covered(gates, from, end) then Segment.Gate else SegmentOf(now);
    forall other
      ensures Millis(from, end, Of(transitions, gates, other)) == if other == segment then end - from else 0
    {
      MillisAll(from, end, Of(transitions, gates, other), other == segment);
    }
    MillisAll(from, end, TimeIn(transitions, gates, AwaitingMerge),
      !Covered(gates, from, end) && now == Some(AwaitingMerge));
  }

  lemma NoPointBetween(points: seq<nat>, start: nat, end: nat, cuts: seq<nat>, pair: nat, x: nat)
    requires cuts == CutsOf(points, start, end) && pair + 1 < |cuts| && x in points
    ensures start <= cuts[pair] < cuts[pair + 1] <= end
    ensures x <= cuts[pair] || cuts[pair + 1] <= x
  {
    assert cuts[pair] in cuts && cuts[pair + 1] in cuts;
    if start <= x <= end {
      NoneInside(cuts, pair, x);
    }
  }

  lemma NoneInside(cuts: seq<nat>, pair: nat, x: nat)
    requires Rising(cuts) && pair + 1 < |cuts| && x in cuts
    ensures x <= cuts[pair] || cuts[pair + 1] <= x
  {
    var k :| 0 <= k < |cuts| && cuts[k] == x;
    if k <= pair {
      assert k < pair ==> cuts[k] < cuts[pair];
    } else {
      assert pair + 1 < k ==> cuts[pair + 1] < cuts[k];
    }
  }

  lemma NothingBetweenCuts(sorted: seq<Transition>, gates: seq<Span>, start: nat, end: nat, cuts: seq<nat>, pair: nat)
    requires cuts == CutsOf([start, end] + Stamps(sorted) + Bounds(gates), start, end)
    requires pair + 1 < |cuts|
    ensures start <= cuts[pair] < cuts[pair + 1] <= end
    ensures Uncut(sorted, gates, cuts[pair], cuts[pair + 1])
  {
    var points := [start, end] + Stamps(sorted) + Bounds(gates);
    NoPointBetween(points, start, end, cuts, pair, start);
    forall k | 0 <= k < |sorted| ensures sorted[k].at <= cuts[pair] || cuts[pair + 1] <= sorted[k].at {
      assert Stamps(sorted)[k] in points;
      NoPointBetween(points, start, end, cuts, pair, sorted[k].at);
    }
    forall i | 0 <= i < |gates|
      ensures gates[i].from <= cuts[pair] || cuts[pair + 1] <= gates[i].from
      ensures gates[i].to <= cuts[pair] || cuts[pair + 1] <= gates[i].to
    {
      NoPointBetween(points, start, end, cuts, pair, gates[i].from);
      NoPointBetween(points, start, end, cuts, pair, gates[i].to);
    }
  }

  lemma CutsSpan(points: seq<nat>, start: nat, end: nat, cuts: seq<nat>)
    requires start <= end && start in points && end in points && cuts == CutsOf(points, start, end)
    ensures cuts != [] && cuts[0] == start && cuts[|cuts| - 1] == end
  {
    assert start in cuts && end in cuts;
    assert cuts[0] in cuts && cuts[|cuts| - 1] in cuts;
    var a :| 0 <= a < |cuts| && cuts[a] == start;
    var b :| 0 <= b < |cuts| && cuts[b] == end;
  }

  // ---- the sweep ---------------------------------------------------------

  function SpentOn(spent: map<Segment, nat>, segment: Segment): nat {
    if segment in spent then spent[segment] else 0
  }

  method AnyCovers(gates: seq<Span>, from: nat, end: nat) returns (covered: bool)
    ensures covered == Covered(gates, from, end)
  {
    covered := false;
    for i := 0 to |gates|
      invariant covered == exists k :: 0 <= k < i && gates[k].from <= from && end <= gates[k].to
    {
      if gates[i].from <= from && end <= gates[i].to {
        covered := true;
      }
    }
  }

  /** The transitions at or before `from`, past the ones already passed. */
  method Advance(
    sorted: seq<Transition>, passed: nat, was: Option<State>, from: nat
  ) returns (next: nat, now: Option<State>)
    requires passed <= |sorted| && forall k :: 0 <= k < passed ==> sorted[k].at <= from
    requires was == if passed == 0 then None else Some(sorted[passed - 1].to)
    ensures passed <= next <= |sorted| && forall k :: 0 <= k < next ==> sorted[k].at <= from
    ensures next < |sorted| ==> sorted[next].at > from
    ensures now == if next == 0 then None else Some(sorted[next - 1].to)
  {
    next, now := passed, was;
    while next < |sorted| && sorted[next].at <= from
      invariant passed <= next <= |sorted| && forall k :: 0 <= k < next ==> sorted[k].at <= from
      invariant now == if next == 0 then None else Some(sorted[next - 1].to)
    {
      now := Some(sorted[next].to);
      next := next + 1;
    }
  }

  ghost predicate Divided(
    transitions: seq<Transition>, gates: seq<Span>, start: nat, end: nat, spent: map<Segment, nat>, awaiting: nat
  ) {
    && (forall segment :: SpentOn(spent, segment) == Millis(start, end, Of(transitions, gates, segment)))
    && awaiting == Millis(start, end, TimeIn(transitions, gates, AwaitingMerge))
  }

  lemma DividedFurther(transitions: seq<Transition>, gates: seq<Span>, start: nat, from: nat, end: nat,
      spent: map<Segment, nat>, awaiting: nat, segment: Segment, waited: bool)
    requires start <= from < end && Divided(transitions, gates, start, from, spent, awaiting)
    requires forall other :: Millis(from, end, Of(transitions, gates, other)) == if other == segment then end - from
      else 0
    requires Millis(from, end, TimeIn(transitions, gates, AwaitingMerge)) == if waited then end - from else 0
    ensures Divided(transitions, gates, start, end, spent[segment := SpentOn(spent, segment) + (end - from)],
                    awaiting + (if waited then end - from else 0))
  {
    var spent' := spent[segment := SpentOn(spent, segment) + (end - from)];
    forall other ensures SpentOn(spent', other) == Millis(start, end, Of(transitions, gates, other)) {
      MillisJoin(start, from, end, Of(transitions, gates, other));
    }
    MillisJoin(start, from, end, TimeIn(transitions, gates, AwaitingMerge));
  }

  /** The sweep: each segment gets exactly the milliseconds `SegmentAt` says are its own. */
  method Sweep(start: nat, end: nat, transitions: seq<Transition>, gates: seq<Span>)
      returns (spent: map<Segment, nat>, awaiting: nat)
    ensures forall segment :: SpentOn(spent, segment) == Millis(start, end, Of(transitions, gates, segment))
    ensures awaiting == Millis(start, end, TimeIn(transitions, gates, AwaitingMerge))
  {
    var sorted := StableSort(StampOf, transitions);
    var cuts := CutsOf([start, end] + Stamps(sorted) + Bounds(gates), start, end);
    spent, awaiting := map[], 0;
    if cuts == [] {
      if start <= end {
        CutsSpan([start, end] + Stamps(sorted) + Bounds(gates), start, end, cuts);
      }
      return;
    }
    assert cuts[0] in cuts;
    CutsSpan([start, end] + Stamps(sorted) + Bounds(gates), start, end, cuts);
    var next := 0;
    var now: Option<State> := None;
    for pair := 0 to |cuts| - 1
      invariant next <= |sorted| && forall k :: 0 <= k < next ==> sorted[k].at <= cuts[pair]
      invariant now == if next == 0 then None else Some(sorted[next - 1].to)
      invariant Divided(transitions, gates, start, cuts[pair], spent, awaiting)
    {
      var from, until := cuts[pair], cuts[pair + 1];
      NothingBetweenCuts(sorted, gates, start, end, cuts, pair);
      next, now := Advance(sorted, next, now, from);
      SliceIsOne(transitions, sorted, gates, from, until, next, now);
      var covered := AnyCovers(gates, from, until);
      var segment := if covered then Segment.Gate else SegmentOf(now);
      var waited := !covered && now == Some(AwaitingMerge);
      DividedFurther(transitions, gates, start, from, until, spent, awaiting, segment, waited);
      if waited {
        awaiting := awaiting + (until - from);
      }
      spent := spent[segment := SpentOn(spent, segment) + (until - from)];
    }
  }

  /** Divide `[start, end)` among the segments: each gets exactly the ungated milliseconds of its own state. */
  method Slices(start: nat, end: nat, transitions: seq<Transition>, gates: seq<Span>)
      returns (spent: map<Segment, nat>, awaiting: nat)
    ensures SpentOn(spent, Gate) == Millis(start, end, InGate(gates))
    ensures SpentOn(spent, Segment.Agent) == Millis(start, end, TimeIn(transitions, gates, State.Agent))
    ensures SpentOn(spent, Segment.Scheduling) == Millis(start, end, TimeIn(transitions, gates, State.Scheduling))
    ensures SpentOn(spent, Segment.Publication) == Millis(start, end, TimeIn(transitions, gates, State.Publication))
    ensures SpentOn(spent, Segment.ReviewWait) == Millis(start, end, TimeIn(transitions, gates, State.ReviewWait))
    ensures SpentOn(spent, Segment.MergeQueue) == Millis(start, end, TimeIn(transitions, gates, State.MergeQueue))
    ensures SpentOn(spent, Segment.ReleaseWait) == Millis(start, end, TimeIn(transitions, gates, State.ReleaseWait))
    ensures SpentOn(spent, Other) == Millis(start, end, Unplaced(transitions, gates))
    ensures awaiting == Millis(start, end, TimeIn(transitions, gates, AwaitingMerge))
  {
    spent, awaiting := Sweep(start, end, transitions, gates);
    SegmentsAreStates(transitions, gates, start, end);
  }

  // ---- what the division is ----------------------------------------------

  /** Every millisecond is some one segment's. */
  lemma {:induction false} EachIsCounted(transitions: seq<Transition>, gates: seq<Span>, start: nat, end: nat)
    requires start <= end
    ensures Millis(start, end, Of(transitions, gates, Segment.Agent))
          + Millis(start, end, Of(transitions, gates, Segment.Scheduling))
          + Millis(start, end, Of(transitions, gates, Gate))
          + Millis(start, end, Of(transitions, gates, Segment.Publication))
          + Millis(start, end, Of(transitions, gates, Segment.ReviewWait))
          + Millis(start, end, Of(transitions, gates, Segment.MergeQueue))
          + Millis(start, end, Of(transitions, gates, Segment.ReleaseWait))
          + Millis(start, end, Of(transitions, gates, Other)) == end - start
    decreases end
  {
    if end > start {
      EachIsCounted(transitions, gates, start, end - 1);
    }
  }

  /** No millisecond is lost or counted twice: the eight counts add up to the interval. */
  lemma SegmentsSumExactly(transitions: seq<Transition>, gates: seq<Span>, start: nat, end: nat)
    requires start <= end
    ensures Millis(start, end, TimeIn(transitions, gates, State.Agent))
          + Millis(start, end, TimeIn(transitions, gates, State.Scheduling))
          + Millis(start, end, InGate(gates))
          + Millis(start, end, TimeIn(transitions, gates, State.Publication))
          + Millis(start, end, TimeIn(transitions, gates, State.ReviewWait))
          + Millis(start, end, TimeIn(transitions, gates, State.MergeQueue))
          + Millis(start, end, TimeIn(transitions, gates, State.ReleaseWait))
          + Millis(start, end, Unplaced(transitions, gates)) == end - start
  {
    EachIsCounted(transitions, gates, start, end);
    SegmentsAreStates(transitions, gates, start, end);
  }

  ghost function GatedIn(gates: seq<Span>, start: nat, end: nat): set<nat> {
    set t: nat | start <= t < end && Gated(gates, t)
  }

  /** A gate's time is the size of the gates' union: what two gates share is counted once. */
  lemma {:induction false} GateTimeIsTheUnion(gates: seq<Span>, start: nat, end: nat)
    ensures Millis(start, end, InGate(gates)) == |GatedIn(gates, start, end)|
    decreases end
  {
    if end > start {
      var last := end - 1;
      GateTimeIsTheUnion(gates, start, last);
      if Gated(gates, last) {
        assert GatedIn(gates, start, end) == GatedIn(gates, start, last) + {last};
      } else {
        assert GatedIn(gates, start, end) == GatedIn(gates, start, last);
      }
    } else {
      assert GatedIn(gates, start, end) == {};
    }
  }

  /** What awaited its merge is part of `other`. */
  lemma {:induction false} AwaitingIsOther(transitions: seq<Transition>, gates: seq<Span>, start: nat, end: nat)
    ensures Millis(start, end, TimeIn(transitions, gates, AwaitingMerge)) <=
      Millis(start, end, Unplaced(transitions, gates))
    decreases end
  {
    if end > start {
      AwaitingIsOther(transitions, gates, start, end - 1);
    }
  }
}
