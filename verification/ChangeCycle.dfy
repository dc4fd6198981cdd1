/**
 One change, produced and read back (src/changes.rs, `cycle` and `ChangeCycle::try_from`):
 every change the producer makes is one its own reader accepts. Durations are whole
 milliseconds throughout.
 */
module ChangeCycle {
  import opened ChangeRecords
  import opened Slices
  import opened Sorting
  import opened Wrappers

  datatype Segments = Segments(
    agent: nat, scheduling: nat, gate: nat, publication: nat, reviewWait: nat, mergeQueue: nat, releaseWait: nat,
    other: nat
  ) {
    function Total(): nat {
      agent + scheduling + gate + publication + reviewWait + mergeQueue + releaseWait + other
    }
  }

  function SegmentsOf(spent: map<Segment, nat>): Segments {
    Segments(
      SpentOn(spent, Segment.Agent), SpentOn(spent, Segment.Scheduling), SpentOn(spent, Gate),
        SpentOn(spent, Segment.Publication),
      SpentOn(spent, Segment.ReviewWait), SpentOn(spent, Segment.MergeQueue), SpentOn(spent, Segment.ReleaseWait),
        SpentOn(spent, Other))
  }

  datatype Cycle = Cycle(
    dispatchedAt: nat,
    landedAt: Option<nat>,
    landing: Option<string>,
    cycleSeconds: Option<nat>,
    dispatches: nat,
    publicationAttempts: nat,
    gateRuns: seq<GateRun>,
    gateSeconds: nat,
    segments: Segments,
    notMeasured: set<Segment>
  )

  // ---- reading -----------------------------------------------------------

  datatype Refusal =
    | LandedWithoutLanding
    | LandedBeforeDispatch
    | CycleIsNotItsStamps
    | CycleWithoutLanding
    | GatesDoNotSum
    | SegmentsDoNotSum

  function Spans(runs: seq<GateRun>): nat {
    if runs == [] then 0 else Spans(runs[..|runs| - 1]) + (runs[|runs| - 1].endedAt - runs[|runs| - 1].startedAt)
  }

  /** The interval a change landed in, or why a document holds no such change. */
  function ReadInterval(cycle: Cycle): Result<Option<nat>, Refusal> {
    if cycle.landedAt.Some? && cycle.landing.None? then Err(LandedWithoutLanding)
    else
      match (cycle.landedAt, cycle.cycleSeconds)
      case (None, None) => Ok(None)
      case (Some(landed), Some(seconds)) =>
        if landed < cycle.dispatchedAt then Err(LandedBeforeDispatch)
        else if seconds != landed - cycle.dispatchedAt then Err(CycleIsNotItsStamps)
        else Ok(Some(landed - cycle.dispatchedAt))
      case _ => Err(CycleWithoutLanding)
  }

  function ReadCycle(cycle: Cycle): Result<Cycle, Refusal> {
    match ReadInterval(cycle)
    case Err(why) => Err(why)
    case Ok(interval) =>
      if cycle.gateSeconds != Spans(cycle.gateRuns) then Err(GatesDoNotSum)
      else if interval.Some? && interval.value != cycle.segments.Total() then Err(SegmentsDoNotSum)
      else Ok(cycle)
  }

  /** What a document has to hold to be read, and all it has to. */
  predicate HoldsTogether(cycle: Cycle) {
    && (cycle.landedAt.Some? <==> cycle.cycleSeconds.Some?)
    && (cycle.landedAt.Some? ==>
         && cycle.landing.Some? && cycle.dispatchedAt <= cycle.landedAt.value
         && cycle.cycleSeconds.value == cycle.landedAt.value - cycle.dispatchedAt == cycle.segments.Total())
    && cycle.gateSeconds == Spans(cycle.gateRuns)
  }

  lemma ReadsWhatHoldsTogether(cycle: Cycle)
    ensures ReadCycle(cycle).Ok? <==> HoldsTogether(cycle)
    ensures ReadCycle(cycle).Ok? ==> ReadCycle(cycle).value == cycle
    ensures ReadCycle(cycle) == Err(LandedBeforeDispatch) <==>
      && cycle.landedAt.Some? && cycle.landing.Some? && cycle.cycleSeconds.Some?
      && cycle.landedAt.value < cycle.dispatchedAt
  {
  }

  // ---- producing ---------------------------------------------------------

  function StartOf(run: GateRun): nat {
    run.startedAt
  }

  function SpansOf(runs: seq<GateRun>): (spans: seq<Span>)
    ensures |spans| == |runs| && forall i :: 0 <= i < |runs| ==> spans[i] == Span(runs[i].startedAt, runs[i].endedAt)
  {
    seq(|runs|, i requires 0 <= i < |runs| => Span(runs[i].startedAt, runs[i].endedAt))
  }

  method GateMillis(runs: seq<GateRun>) returns (millis: nat)
    ensures millis == Spans(runs)
  {
    millis := 0;
    for i := 0 to |runs|
      invariant millis == Spans(runs[..i])
    {
      assert runs[..i + 1][..i] == runs[..i];
      millis := millis + runs[i].seconds;
    }
    assert runs[..|runs|] == runs;
  }

  /** The landing a change is measured to: one beside its commit, and not before the work began. */
  function Measured(landed: Option<Said>, start: nat): Option<nat> {
    if landed.Some? && landed.value.Landed? && landed.value.landing.Some? && landed.value.at.Some? &&
      landed.value.at.value >= start then
      landed.value.at
    else None
  }

  /** The commit a landing named, whether or not its time is kept. */
  function LandingOf(landed: Option<Said>): Option<string> {
    if landed.Some? && landed.value.Landed? then landed.value.landing else None
  }

  function EndOf(landedAt: Option<nat>, last: nat, start: nat): nat {
    var end := if landedAt.Some? then landedAt.value else last;
    if end < start then start else end
  }

  function Without(spent: map<Segment, nat>): map<Segment, nat> {
    (spent - {Segment.Publication})[Other := SpentOn(spent, Other) + SpentOn(spent, Segment.Publication)]
  }

  /**
   What a change spent on each segment: the ungated time of one state, but for a publication the
   records cannot tell from its gates, whose time is `other`.
   */
  ghost predicate Shows(
    transitions: seq<Transition>, gates: seq<Span>, start: nat, end: nat, undecided: bool, segments: Segments
  ) {
    var publication := Millis(start, end, TimeIn(transitions, gates, State.Publication));
    && segments.agent == Millis(start, end, TimeIn(transitions, gates, State.Agent))
    && segments.scheduling == Millis(start, end, TimeIn(transitions, gates, State.Scheduling))
    && segments.gate == Millis(start, end, InGate(gates))
    && segments.publication == (if undecided then 0 else publication)
    && segments.reviewWait == Millis(start, end, TimeIn(transitions, gates, State.ReviewWait))
    && segments.mergeQueue == Millis(start, end, TimeIn(transitions, gates, State.MergeQueue))
    && segments.releaseWait == Millis(start, end, TimeIn(transitions, gates, State.ReleaseWait))
    && segments.other ==
         Millis(start, end, Unplaced(transitions, gates)) + (if undecided then publication else 0)
  }

  /** Whether a session wrote what a record says, and not the run itself or one of its agents. */
  ghost predicate SessionWrote(said: Said) {
    || said in {SessionSaid, Published, Push, ChangeOpened, ChecksSettled, DraftKeptForReview, DraftLifted, MergeQueued,
                SyncConflict}
    || said.GateRan? || said.ChangeDrafted? || said.Landed?
  }

  lemma SessionsWrote(said: Said)
    ensures SessionWrote(said) <==> OfSession(said)
  {
  }

  ghost predicate IsLifecycle(records: seq<Record>, repoNamed: bool) {
    repoNamed || exists i :: 0 <= i < |records| && SessionWrote(records[i].said)
  }

  ghost predicate IsDispatched(records: seq<Record>) {
    exists i :: 0 <= i < |records| && Dispatches(records[i]) && records[i].ts.Some?
  }

  /**
   A change names its landing's commit, and is measured to a landing that names one and is no earlier
   than its work.
   */
  ghost predicate IsMeasured(landed: Option<Said>, cycle: Cycle) {
    match landed
    case Some(Landed(at, landing)) =>
      && cycle.landing == landing
      && (cycle.landedAt == if at.Some? && landing.Some? && cycle.dispatchedAt <= at.value then at else None)
    case _ => cycle.landing.None? && cycle.landedAt.None?
  }

  /** Where a change's interval ends: at its landing, or else at the run's last record, if that is no earlier. */
  ghost predicate EndsAt(cycle: Cycle, last: nat, end: nat) {
    && (cycle.landedAt.Some? ==> end == cycle.landedAt.value)
    && (cycle.landedAt.None? && cycle.dispatchedAt <= last ==> end == last)
    && (cycle.landedAt.None? && last < cycle.dispatchedAt ==> end == cycle.dispatchedAt)
  }

  /** The time a change is divided over, and what each segment of it was given. */
  ghost predicate Divides(
    transitions: seq<Transition>, runs: seq<GateRun>, last: nat, undecided: bool, cycle: Cycle, end: nat
  ) {
    && EndsAt(cycle, last, end)
    && cycle.dispatchedAt <= end && cycle.segments.Total() == end - cycle.dispatchedAt
    && Shows(transitions, SpansOf(runs), cycle.dispatchedAt, end, undecided, cycle.segments)
  }

  ghost predicate AdmitsWhatIsUndecided(
    transitions: seq<Transition>, runs: seq<GateRun>, gatesRecorded: bool, undecided: bool, cycle: Cycle, end: nat
  ) {
    var awaiting := Millis(cycle.dispatchedAt, end, TimeIn(transitions, SpansOf(runs), AwaitingMerge));
    && (Gate in cycle.notMeasured <==> !gatesRecorded)
    && (Segment.Publication in cycle.notMeasured <==> undecided)
    && (Segment.ReviewWait in cycle.notMeasured <==> awaiting > 0)
    && cycle.notMeasured <= {Gate, Segment.Publication, Segment.ReviewWait}
  }

  /** What a change says, told of its records alone. */
  ghost predicate Tells(
    records: seq<Record>, lifecycle: bool, last: nat, gatesRecorded: bool, cycle: Cycle, end: nat
  ) {
    var runs, transitions := GateRuns(records), DoingAfter(records, lifecycle).transitions;
    && IsFirstDispatch(records, Some(cycle.dispatchedAt))
    && IsMeasured(FirstLanding(records), cycle)
    && cycle.dispatches == DispatchCount(records)
    && cycle.publicationAttempts == Attempts(records, lifecycle)
    && cycle.gateRuns == StableSort(StartOf, runs)
    && (forall i, j :: 0 <= i < j < |cycle.gateRuns| ==> cycle.gateRuns[i].startedAt <= cycle.gateRuns[j].startedAt)
    && Divides(transitions, runs, last, !gatesRecorded && lifecycle, cycle, end)
    && AdmitsWhatIsUndecided(transitions, runs, gatesRecorded, !gatesRecorded && lifecycle, cycle, end)
  }

  method Lifecycle(records: seq<Record>, repoNamed: bool) returns (lifecycle: bool)
    ensures lifecycle <==> IsLifecycle(records, repoNamed)
  {
    lifecycle := repoNamed;
    for i := 0 to |records|
      invariant lifecycle <==> repoNamed || exists k :: 0 <= k < i && SessionWrote(records[k].said)
    {
      SessionsWrote(records[i].said);
      if OfSession(records[i].said) {
        lifecycle := true;
      }
    }
  }

  /** Divide the interval, moving a publication that cannot be told from its gates to `other`. */
  method Divide(
    start: nat, end: nat, transitions: seq<Transition>, gates: seq<Span>, undecided: bool
  ) returns (segments: Segments, awaiting: nat)
    requires start <= end
    ensures segments.Total() == end - start
    ensures Shows(transitions, gates, start, end, undecided, segments)
    ensures awaiting == Millis(start, end, TimeIn(transitions, gates, AwaitingMerge))
  {
    var spent;
    spent, awaiting := Slices.Slices(start, end, transitions, gates);
    segments := SegmentsOf(spent);
    ShownSums(transitions, gates, start, end, segments);
    if undecided {
      MovedIsOther(spent);
      HiddenShows(transitions, gates, start, end, segments);
      segments := SegmentsOf(Without(spent));
    }
  }

  lemma ShownSums(transitions: seq<Transition>, gates: seq<Span>, start: nat, end: nat, segments: Segments)
    requires start <= end && Shows(transitions, gates, start, end, false, segments)
    ensures segments.Total() == end - start
  {
    SegmentsSumExactly(transitions, gates, start, end);
  }

  function Hidden(segments: Segments): Segments {
    segments.(publication := 0, other := segments.other + segments.publication)
  }

  /** What a publication that cannot be told from its gates is moved to: `other`, which keeps the sum. */
  lemma HiddenShows(transitions: seq<Transition>, gates: seq<Span>, start: nat, end: nat, segments: Segments)
    requires Shows(transitions, gates, start, end, false, segments)
    ensures Shows(transitions, gates, start, end, true, Hidden(segments))
    ensures Hidden(segments).Total() == segments.Total()
  {
  }

  lemma MovedIsOther(spent: map<Segment, nat>)
    ensures SegmentsOf(Without(spent)) == Hidden(SegmentsOf(spent))
  {
    var moved := Without(spent);
    forall segment ensures SpentOn(moved, segment) == MovedTime(spent, segment) {
      SpentWithout(spent, segment);
    }
    HiddenIs(spent, moved);
  }

  function MovedTime(spent: map<Segment, nat>, segment: Segment): nat {
    if segment == Segment.Publication then 0
    else if segment == Other then SpentOn(spent, Other) + SpentOn(spent, Segment.Publication)
    else SpentOn(spent, segment)
  }

  lemma HiddenIs(spent: map<Segment, nat>, moved: map<Segment, nat>)
    requires forall segment :: SpentOn(moved, segment) == MovedTime(spent, segment)
    ensures SegmentsOf(moved) == Hidden(SegmentsOf(spent))
  {
  }

  lemma SpentWithout(spent: map<Segment, nat>, segment: Segment)
    ensures SpentOn(Without(spent), segment) == MovedTime(spent, segment)
  {
  }

  /** The change a lineage's records make, if any of them is a stamped dispatch; the reader accepts it. */
  method CycleOf(records: seq<Record>, repoNamed: bool, last: nat, gatesRecorded: bool) returns (made: Option<Cycle>)
    ensures made.Some? <==> IsDispatched(records)
    ensures made.Some? ==> ReadCycle(made.value) == Ok(made.value)
    ensures made.Some? ==>
      exists lifecycle, end ::
      (lifecycle <==> IsLifecycle(records, repoNamed))
      && Tells(records, lifecycle, last, gatesRecorded, made.value, end)
  {
    var lifecycle := Lifecycle(records, repoNamed);
    var reading := new Reading(lifecycle);
    reading.TakeAll(records);
    if reading.dispatchedAt.None? {
      return None;
    }
    ghost var end;
    var cycle;
    cycle, end := Measure(reading, last, gatesRecorded);
    ReadsWhatHoldsTogether(cycle);
    made := Some(cycle);
  }

  method Measure(reading: Reading, last: nat, gatesRecorded: bool) returns (cycle: Cycle, ghost end: nat)
    requires reading.Valid() && reading.dispatchedAt.Some?
    ensures HoldsTogether(cycle) && Tells(reading.taken, reading.lifecycle, last, gatesRecorded, cycle, end)
  {
    var attempts := reading.Close();
    cycle, end := Assemble(
      reading.dispatchedAt.value, reading.landed, reading.gateRuns, reading.doing.transitions, last, gatesRecorded,
      !gatesRecorded && reading.lifecycle, reading.dispatches, attempts);
  }

  method Assemble(
    start: nat, landed: Option<Said>, recorded: seq<GateRun>, transitions: seq<Transition>, last: nat,
    gatesRecorded: bool, undecided: bool, dispatches: nat, attempts: nat
  ) returns (cycle: Cycle, ghost end: nat)
    ensures HoldsTogether(cycle) && cycle.dispatchedAt == start && IsMeasured(landed, cycle)
    ensures cycle.dispatches == dispatches && cycle.publicationAttempts == attempts
    ensures cycle.gateRuns == StableSort(StartOf, recorded)
    ensures forall i, j :: 0 <= i < j < |cycle.gateRuns| ==> cycle.gateRuns[i].startedAt <= cycle.gateRuns[j].startedAt
    ensures Divides(transitions, recorded, last, undecided, cycle, end)
    ensures AdmitsWhatIsUndecided(transitions, recorded, gatesRecorded, undecided, cycle, end)
  {
    var landedAt := Measured(landed, start);
    var until := EndOf(landedAt, last, start);
    var runs := StableSort(StartOf, recorded);
    var gateMillis := GateMillis(runs);
    var segments, awaiting := Divide(start, until, transitions, SpansOf(recorded), undecided);
    var notMeasured := NotMeasured(gatesRecorded, undecided, awaiting);
    cycle := Cycle(start, landedAt, LandingOf(landed), if landedAt.Some? then Some(until - start) else None,
                   dispatches, attempts, runs, gateMillis, segments, notMeasured);
    end := until;
    IntervalIs(cycle, landed, last, until);
    StartsRise(recorded, runs);
  }

  lemma StartsRise(recorded: seq<GateRun>, runs: seq<GateRun>)
    requires runs == StableSort(StartOf, recorded)
    ensures forall i, j :: 0 <= i < j < |runs| ==> runs[i].startedAt <= runs[j].startedAt
  {
    StableSorts(StartOf, recorded);
    forall i, j | 0 <= i < j < |runs| ensures runs[i].startedAt <= runs[j].startedAt {
      assert StartOf(runs[i]) <= StartOf(runs[j]);
    }
  }

  function NotMeasured(gatesRecorded: bool, undecided: bool, awaiting: nat): (segments: set<Segment>)
    ensures Gate in segments <==> !gatesRecorded
    ensures Segment.Publication in segments <==> undecided
    ensures Segment.ReviewWait in segments <==> awaiting > 0
    ensures segments <= {Gate, Segment.Publication, Segment.ReviewWait}
  {
    (if gatesRecorded then {} else {Gate}) + (if undecided then {Segment.Publication} else {}) +
    (if awaiting > 0 then {Segment.ReviewWait} else {})
  }

  lemma IntervalIs(cycle: Cycle, landed: Option<Said>, last: nat, end: nat)
    requires cycle.landedAt == Measured(landed, cycle.dispatchedAt) && cycle.landing == LandingOf(landed)
    requires end == EndOf(cycle.landedAt, last, cycle.dispatchedAt)
    ensures IsMeasured(landed, cycle) && EndsAt(cycle, last, end) && cycle.dispatchedAt <= end
    ensures cycle.landedAt.Some? ==> cycle.landing.Some? && cycle.landedAt.value == end
  {
  }

  // ---- what a change's own numbers say -----------------------------------

  /** What gates cover of an interval is never more than they took: what two share is counted once. */
  lemma GateTimeIsWithinTheRuns(runs: seq<GateRun>, start: nat, end: nat)
    ensures Millis(start, end, InGate(SpansOf(runs))) <= Spans(runs)
  {
    GateTimeIsTheUnion(SpansOf(runs), start, end);
    UnionIsWithin(runs, start, end);
  }

  lemma {:induction false} UnionIsWithin(runs: seq<GateRun>, start: nat, end: nat)
    ensures |GatedIn(SpansOf(runs), start, end)| <= Spans(runs)
  {
    if runs == [] {
      assert GatedIn(SpansOf(runs), start, end) == {};
    } else {
      var front, last := runs[..|runs| - 1], runs[|runs| - 1];
      UnionIsWithin(front, start, end);
      MomentsCount(last.startedAt, last.endedAt);
      LastGateAdds(runs, front, last, start, end);
      Within(GatedIn(SpansOf(runs), start, end),
        GatedIn(SpansOf(front), start, end) + Moments(last.startedAt, last.endedAt));
    }
  }

  lemma LastGateAdds(runs: seq<GateRun>, front: seq<GateRun>, last: GateRun, start: nat, end: nat)
    requires runs == front + [last]
    ensures GatedIn(SpansOf(runs), start, end) <=
      GatedIn(SpansOf(front), start, end) + Moments(last.startedAt, last.endedAt)
  {
    var all, earlier := SpansOf(runs), SpansOf(front);
    forall t | t in GatedIn(all, start, end) && t !in Moments(last.startedAt, last.endedAt)
      ensures t in GatedIn(earlier, start, end)
    {
      var i :| 0 <= i < |all| && all[i].from <= t < all[i].to;
      assert i < |front| && earlier[i] == all[i];
    }
  }

  ghost function Moments(from: nat, end: nat): (moments: set<nat>)
    ensures forall t :: t in moments <==> from <= t < end
    decreases end
  {
    if end <= from then {} else Moments(from, end - 1) + {end - 1}
  }

  lemma {:induction false} MomentsCount(from: nat, end: nat)
    requires from <= end
    ensures |Moments(from, end)| == end - from
    decreases end
  {
    if from < end {
      MomentsCount(from, end - 1);
    }
  }

  lemma Within(small: set<nat>, large: set<nat>)
    requires small <= large
    ensures |small| <= |large|
  {
    assert large == small + (large - small);
  }

  /** A change no session wrote of spends nothing publishing, so nothing of it is undecided. */
  lemma {:induction false} NoPublicationIsSpent(records: seq<Record>, gates: seq<Span>, start: nat, end: nat)
    requires !IsLifecycle(records, false)
    ensures Millis(start, end, TimeIn(DoingAfter(records, false).transitions, gates, State.Publication)) == 0
    decreases end
  {
    var transitions := DoingAfter(records, false).transitions;
    if start < end {
      NoPublicationIsSpent(records, gates, start, end - 1);
      forall i | 0 <= i < |records| ensures !OfSession(records[i].said) {
        SessionsWrote(records[i].said);
      }
      NothingPublishedNoPublication(records);
      var i := LatestIsLatest(transitions, end - 1);
    }
  }
}
