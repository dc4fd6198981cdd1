/**
 The marker of a fold (src/checkpoint.rs, `Coverage`): counts of bytes and lines, the
 greatest placed record, and the greatest `seq` of each stream.
 */
module Coverage {
  import opened Journal
  import opened MergeSplit
  import opened Wrappers

  datatype Coverage = Coverage(
    bytes: nat,
    records: nat,
    at: Option<Placed>,
    streams: map<nat, nat>,
    digest: nat
  )

  function Raised(reached: map<nat, nat>, stream: nat, number: nat): map<nat, nat> {
    reached[stream := if stream in reached && reached[stream] > number then reached[stream] else number]
  }

  /** `absorb`: account for one more line, of which `record` was read; one that is none moves the counts alone. */
  function Absorbs(coverage: Coverage, record: Option<Envelope>, bytes: nat): Coverage {
    var counted := coverage.(bytes := coverage.bytes + bytes, records := coverage.records + 1);
    match record
    case None => counted
    case Some(event) =>
      var placed := PlacedOf(event);
      counted.(
        at := if coverage.at.None? || !AtOrBefore(placed, coverage.at.value) then Some(placed) else coverage.at,
        streams := Raised(coverage.streams, event.stream, event.number))
  }

  function Absorbed(coverage: Coverage, line: FinishedLine): Coverage {
    Absorbs(coverage, line.record, line.bytes)
  }

  /** `is_in_front_of`: whether the marker puts everything it accounts for ahead of `event`. */
  predicate IsInFrontOf(coverage: Coverage, event: Envelope) {
    && (coverage.at.None? || AtOrBefore(coverage.at.value, PlacedOf(event)))
    && (event.stream !in coverage.streams || coverage.streams[event.stream] <= event.number)
  }

  function Covering(lines: seq<FinishedLine>, digest: nat): Coverage {
    if lines == [] then Coverage(0, 0, None, map[], digest)
    else Absorbed(Covering(lines[..|lines| - 1], digest), lines[|lines| - 1])
  }

  /** Whether `reached` is the greatest `seq` of every stream among `events`, and of no other. */
  ghost predicate Reaches(reached: map<nat, nat>, events: seq<Envelope>) {
    && (forall i :: 0 <= i < |events| ==> events[i].stream in reached && events[i].number <= reached[events[i].stream])
    && (forall stream :: stream in reached ==>
          exists i :: 0 <= i < |events| && events[i].stream == stream && events[i].number == reached[stream])
  }

  ghost predicate GreatestPlaced(at: Option<Placed>, events: seq<Envelope>) {
    match at
    case None => events == []
    case Some(placed) =>
      && (forall i :: 0 <= i < |events| ==> AtOrBefore(PlacedOf(events[i]), placed))
      && exists i :: 0 <= i < |events| && PlacedOf(events[i]) == placed
  }

  lemma RaisedReaches(reached: map<nat, nat>, events: seq<Envelope>, event: Envelope)
    requires Reaches(reached, events)
    ensures Reaches(Raised(reached, event.stream, event.number), events + [event])
  {
    var raised, all := Raised(reached, event.stream, event.number), events + [event];
    assert all[|events|] == event;
    forall stream | stream in raised
      ensures exists i :: 0 <= i < |all| && all[i].stream == stream && all[i].number == raised[stream]
    {
      if stream in reached && raised[stream] == reached[stream] {
        var i :| 0 <= i < |events| && events[i].stream == stream && events[i].number == reached[stream];
        assert all[i] == events[i];
      }
    }
  }

  lemma GreatestRises(at: Option<Placed>, events: seq<Envelope>, event: Envelope)
    requires GreatestPlaced(at, events)
    ensures GreatestPlaced(
              if at.None? || !AtOrBefore(PlacedOf(event), at.value) then Some(PlacedOf(event)) else at,
              events + [event])
  {
    var all := events + [event];
    assert all[|events|] == event;
    if at.Some? {
      var i :| 0 <= i < |events| && PlacedOf(events[i]) == at.value;
      assert all[i] == events[i];
    }
  }

  /** What a marker grown a line at a time says: exact sums, and exact maxima. */
  lemma {:induction false} CoveringIsExact(lines: seq<FinishedLine>, digest: nat)
    ensures Covering(lines, digest).bytes == SizeOf(lines)
    ensures Covering(lines, digest).records == |lines|
    ensures GreatestPlaced(Covering(lines, digest).at, Records(lines))
    ensures Reaches(Covering(lines, digest).streams, Records(lines))
    ensures Covering(lines, digest).digest == digest
    decreases |lines|
  {
    if lines != [] {
      var front, last := lines[..|lines| - 1], lines[|lines| - 1];
      CoveringIsExact(front, digest);
      if last.record.Some? {
        RaisedReaches(Covering(front, digest).streams, Records(front), last.record.value);
        GreatestRises(Covering(front, digest).at, Records(front), last.record.value);
      } else {
        assert Records(front) + [] == Records(front);
      }
    }
  }

  lemma OrderIsTransitive(a: Placed, b: Placed, c: Placed)
    requires AtOrBefore(a, b) && AtOrBefore(b, c)
    ensures AtOrBefore(a, c)
  {
  }

  /** Whether a marker's two marks are those of some records. */
  ghost predicate Marks(coverage: Coverage, events: seq<Envelope>) {
    GreatestPlaced(coverage.at, events) && Reaches(coverage.streams, events)
  }

  lemma MarksOneMore(coverage: Coverage, events: seq<Envelope>, event: Envelope, bytes: nat)
    requires Marks(coverage, events)
    ensures Marks(Absorbs(coverage, Some(event), bytes), events + [event])
  {
    RaisedReaches(coverage.streams, events, event);
    GreatestRises(coverage.at, events, event);
  }

  /** The one comparison the marker makes is the comparison with every record it accounts for. */
  lemma MarksCompareWithAll(coverage: Coverage, events: seq<Envelope>, event: Envelope)
    requires Marks(coverage, events)
    ensures IsInFrontOf(coverage, event) <==> AllInFront(events, [event])
  {
    if IsInFrontOf(coverage, event) {
      forall i | 0 <= i < |events| ensures InFront(events[i], event) {
        OrderIsTransitive(PlacedOf(events[i]), coverage.at.value, PlacedOf(event));
      }
    }
    if AllInFront(events, [event]) {
      assert forall i :: 0 <= i < |events| ==> InFront(events[i], [event][0]);
    }
  }

  /** That is enough for the merge to put the record behind all that is covered. */
  lemma MarkerComparesWithAll(lines: seq<FinishedLine>, digest: nat, event: Envelope)
    ensures IsInFrontOf(Covering(lines, digest), event) <==> AllInFront(Records(lines), [event])
  {
    CoveringIsExact(lines, digest);
    MarksCompareWithAll(Covering(lines, digest), Records(lines), event);
  }

  /** Growing a marker over more lines is the marker over all of them. */
  lemma CoversOneMore(lines: seq<FinishedLine>, line: FinishedLine, digest: nat)
    ensures Covering(lines + [line], digest) == Absorbed(Covering(lines, digest), line)
  {
    assert (lines + [line])[..|lines|] == lines;
  }
}
