/**
 Exactly when a fold taken in pieces is the whole-store fold (src/checkpoint.rs), of any
 store, and exactly when the marker's comparison is right.
 */
module CheckpointExact {
  import opened Checkpoint
  import opened CheckpointCuts
  import opened CheckpointHistory
  import opened CheckpointRuns
  import opened Coverage
  import opened Folding
  import opened Journal
  import opened Merging
  import opened MergeExact
  import opened MergeSplit
  import opened Wrappers

  // ---- cuts --------------------------------------------------------------

  lemma {:induction false} BarrieredIsPermutation(lines: seq<FinishedLine>, cuts: seq<nat>)
    requires ValidCuts(cuts, |lines|)
    ensures multiset(Barriered(lines, cuts)) == multiset(Records(lines[..LastCut(cuts)]))
    decreases |cuts|
  {
    if cuts == [] {
      assert lines[..0] == [];
    } else {
      var before, last := cuts[..|cuts| - 1], LastCut(cuts);
      FewerCuts(cuts, |lines|);
      BarrieredIsPermutation(lines, before);
      PieceJoins(lines, LastCut(before), last);
      MergedIsPermutation(Records(lines[LastCut(before)..last]));
    }
  }

  lemma PieceJoins(lines: seq<FinishedLine>, from: nat, cut: nat)
    requires from <= cut <= |lines|
    ensures Records(lines[..cut]) == Records(lines[..from]) + Records(lines[from..cut])
  {
    assert lines[..cut] == lines[..from] + lines[from..cut];
    RecordsJoin(lines[..from], lines[from..cut]);
  }

  lemma {:induction false} BarrieredFrom(
    lines: seq<FinishedLine>, cuts: seq<nat>, front: seq<nat>
  ) returns (rest: seq<Envelope>)
    requires ValidCuts(cuts, |lines|) && front <= cuts && front != []
    ensures ValidCuts(front, |lines|) && Barriered(lines, cuts) == Barriered(lines, front) + rest
    decreases |cuts|
  {
    if |front| == |cuts| {
      assert front == cuts;
      rest := [];
    } else {
      var before := cuts[..|cuts| - 1];
      FewerCuts(cuts, |lines|);
      var some := BarrieredFrom(lines, before, front);
      var last := Merged(Records(lines[LastCut(before)..LastCut(cuts)]));
      Associates(Barriered(lines, front), some, last);
      rest := some + last;
    }
  }

  /**
   Each cut splits what was folded into what was before it and what was after, whatever orders those
   were folded in.
   */
  lemma OrderSplitsAt(lines: seq<FinishedLine>, cuts: seq<nat>, i: nat) returns (x: seq<Envelope>, y: seq<Envelope>)
    requires ValidCuts(cuts, |lines|) && i < |cuts|
    ensures OrderOver(lines, cuts) == x + y
    ensures multiset(x) == multiset(Records(lines[..cuts[i]])) && multiset(y) == multiset(Records(lines[cuts[i]..]))
  {
    var front := cuts[..i + 1];
    var rest := BarrieredFrom(lines, cuts, front);
    var tail := Merged(Records(lines[LastCut(cuts)..]));
    x, y := Barriered(lines, front), rest + tail;
    Associates(x, rest, tail);
    BarrieredIsPermutation(lines, front);
    assert LastCut(front) == cuts[i];
    OrderIsPermutation(lines, cuts);
    SplitRecords(lines, cuts[i]);
    SplitCancels(x, y, Records(lines[..cuts[i]]), Records(lines[cuts[i]..]));
  }

  lemma OrderIsPermutation(lines: seq<FinishedLine>, cuts: seq<nat>)
    requires ValidCuts(cuts, |lines|)
    ensures multiset(OrderOver(lines, cuts)) == multiset(Records(lines))
  {
    BarrieredIsPermutation(lines, cuts);
    MergedIsPermutation(Records(lines[LastCut(cuts)..]));
    SplitRecords(lines, LastCut(cuts));
  }

  /** Whether the merge keeps what is before a cut ahead of what is past it. */
  ghost predicate ApartAt(lines: seq<FinishedLine>, cut: nat)
    requires cut <= |lines|
  {
    StandsApart(Records(lines[..cut]), Records(lines[cut..]))
  }

  lemma WholeSplitsAt(lines: seq<FinishedLine>, cut: nat)
    requires cut <= |lines| && ApartAt(lines, cut)
    ensures Merged(Records(lines)) == Merged(Records(lines[..cut])) + Merged(Records(lines[cut..]))
  {
    SplitRecords(lines, cut);
    SplitsExactly(Records(lines[..cut]), Records(lines[cut..]));
  }

  lemma {:induction false} ApartCutsLeaveNoTrace(lines: seq<FinishedLine>, cuts: seq<nat>)
    requires ValidCuts(cuts, |lines|)
    requires forall i :: 0 <= i < |cuts| ==> ApartAt(lines, cuts[i])
    ensures OrderOver(lines, cuts) == Merged(Records(lines))
    decreases |cuts|
  {
    if cuts == [] {
      Uncut(lines);
    } else {
      var before, last := cuts[..|cuts| - 1], LastCut(cuts);
      FewerCuts(cuts, |lines|);
      ApartCutsLeaveNoTrace(lines, before);
      OneApartCut(lines, before, last);
      CutsAre(cuts);
    }
  }

  /** One more cut where the merge stands apart changes no order that was the whole store's. */
  lemma OneApartCut(lines: seq<FinishedLine>, cuts: seq<nat>, cut: nat)
    requires ValidCuts(cuts, |lines|) && LastCut(cuts) <= cut <= |lines| && ApartAt(lines, cut)
    requires OrderOver(lines, cuts) == Merged(Records(lines))
    ensures ValidCuts(cuts + [cut], |lines|)
    ensures OrderOver(lines, cuts + [cut]) == Merged(Records(lines))
  {
    var from := LastCut(cuts);
    var piece, rest := Records(lines[from..cut]), Records(lines[cut..]);
    CutOnce(lines, cuts, cut);
    WholeSplitsAt(lines, cut);
    PieceJoins(lines, from, cut);
    PieceAndRest(lines, from, cut);
    BarrieredIsPermutation(lines, cuts);
    MergedIsPermutation(Records(lines[..cut]));
    PieceIsItsMerge(Barriered(lines, cuts), Merged(Records(lines[..cut])), Records(lines[..from]), piece, rest);
    assert LastCut(cuts + [cut]) == cut;
  }

  lemma PieceAndRest(lines: seq<FinishedLine>, from: nat, cut: nat)
    requires from <= cut <= |lines|
    ensures Records(lines[from..]) == Records(lines[from..cut]) + Records(lines[cut..])
  {
    assert lines[from..] == lines[from..cut] + lines[cut..];
    RecordsJoin(lines[from..cut], lines[cut..]);
  }

  /** Two ways of cutting one merge: what lies between the cuts is merged on its own. */
  lemma PieceIsItsMerge(
    before: seq<Envelope>, through: seq<Envelope>, front: seq<Envelope>, piece: seq<Envelope>, rest: seq<Envelope>
  )
    requires before + Merged(piece + rest) == through + Merged(rest)
    requires multiset(before) == multiset(front) && multiset(through) == multiset(front + piece)
    ensures through == before + Merged(piece)
  {
    assert |before| == |multiset(before)| == |multiset(front)| == |front|;
    assert |through| == |multiset(through)| == |multiset(front + piece)| == |front| + |piece|;
    var between := through[|before|..];
    SplitsBetween(before, Merged(piece + rest), through, Merged(rest), between);
    SplitCancels(before, between, front, piece);
    AnySplitIsTheMerges(between, Merged(rest), piece, rest);
  }

  lemma SplitsBetween<T>(a: seq<T>, b: seq<T>, c: seq<T>, d: seq<T>, between: seq<T>)
    requires a + b == c + d && |a| <= |c| && between == c[|a|..]
    ensures c == a + between && b == between + d
  {
    assert c == (a + b)[..|c|] && a == (c + d)[..|a|];
    assert b == (a + b)[|a|..] && (c + d)[|a|..] == between + d;
  }

  /** Folding piece by piece is folding the whole store exactly where the merge stands apart at every cut. */
  lemma CutsLeaveNoTraceExactly(lines: seq<FinishedLine>, cuts: seq<nat>)
    requires ValidCuts(cuts, |lines|)
    ensures OrderOver(lines, cuts) == Merged(Records(lines)) <==>
      forall i :: 0 <= i < |cuts| ==> ApartAt(lines, cuts[i])
  {
    if OrderOver(lines, cuts) == Merged(Records(lines)) {
      forall i | 0 <= i < |cuts| ensures ApartAt(lines, cuts[i]) {
        var x, y := OrderSplitsAt(lines, cuts, i);
        SplitRecords(lines, cuts[i]);
        AnySplitIsTheMerges(x, y, Records(lines[..cuts[i]]), Records(lines[cuts[i]..]));
      }
    }
    if forall i :: 0 <= i < |cuts| ==> ApartAt(lines, cuts[i]) {
      ApartCutsLeaveNoTrace(lines, cuts);
    }
  }

  /** Of a store in time, that is exactly where no cut has a later record in front of an earlier. */
  lemma CutsInTime(lines: seq<FinishedLine>, cut: nat)
    requires cut <= |lines| && InTime(Records(lines))
    ensures ApartAt(lines, cut) <==> InFrontAt(lines, cut)
  {
    SplitRecords(lines, cut);
    ApartInTime(Records(lines[..cut]), Records(lines[cut..]));
  }

  /**
   Every read of every run: the order it folded in is the whole store's exactly where the merge
   stands apart at every stop.
   */
  lemma ReadIsWholeExactly<S(!new), A(!new)>(
    fold: Fold<S, A>, run: string, worlds: seq<World<S, A>>, steps: seq<Step<S, A>>, n: nat, lines: seq<FinishedLine>,
    cuts: seq<nat>
  )
    requires IsRun(fold, run, worlds, steps) && n < |steps| && (steps[n].Refresh? || steps[n].Reopen?)
    requires lines == ReadAt(fold, run, worlds, steps, n) &&
      cuts == StopsOf(fold, run, worlds, steps, n + 1).reader.cuts
    ensures ValidCuts(cuts, |lines|) &&
      worlds[n + 1].reader.state == StateOver(fold, fold.empty, OrderOver(lines, cuts))
    ensures OrderOver(lines, cuts) == Merged(Records(lines)) <==>
      forall i :: 0 <= i < |cuts| ==> ApartAt(lines, cuts[i])
  {
    EveryReadIsExact(fold, run, worlds, steps, n, worlds[n + 1]);
    CutsLeaveNoTraceExactly(lines, cuts);
  }

  // ---- the marker --------------------------------------------------------

  /**
   Whether the merge puts one more record last: its stream numbers none before it higher, and
   whatever the merge still takes once that stream has run out is placed at or before it.
   */
  ghost predicate LandsLast(events: seq<Envelope>, event: Envelope) {
    && (forall i :: 0 <= i < |events| && events[i].stream == event.stream ==> events[i].number <= event.number)
    && forall k: nat :: k < |events| && SpentAt(Merged(events), k, event.stream) ==>
         AtOrBefore(PlacedOf(Merged(events)[k]), PlacedOf(event))
  }

  lemma LandsLastExactly(events: seq<Envelope>, event: Envelope)
    ensures Merged(events + [event]) == Merged(events) + [event] <==> LandsLast(events, event)
  {
    SplitsExactly(events, [event]);
    OneMerges(event);
    assert FirstOfStream([event], 0) && [event][0] == event;
    if StandsApart(events, [event]) {
      forall i | 0 <= i < |events| && events[i].stream == event.stream ensures events[i].number <= event.number {
        assert events[i].stream == [event][0].stream;
      }
    }
  }

  /**
   The marker is right about a record, of any store, exactly unless it refuses one the merge
   puts last all the same; what it lets in, the merge puts last.
   */
  lemma MarkerDecidesTheMerge(lines: seq<FinishedLine>, digest: nat, event: Envelope)
    ensures var admits := IsInFrontOf(Covering(lines, digest), event);
            var last := Merged(Records(lines) + [event]) == Merged(Records(lines)) + [event];
            && (admits ==> last)
            && ((admits <==> last) <==> admits || !LandsLast(Records(lines), event))
  {
    MarkerComparesWithAll(lines, digest, event);
    LandsLastExactly(Records(lines), event);
    if AllInFront(Records(lines), [event]) {
      MergeSplits(Records(lines), [event]);
      OneMerges(event);
    }
  }

  /** Of a store in time it is always right. */
  lemma MarkerIsExactInTime(lines: seq<FinishedLine>, digest: nat, event: Envelope)
    requires InTime(Records(lines) + [event])
    ensures IsInFrontOf(Covering(lines, digest), event)
       <==> Merged(Records(lines) + [event]) == Merged(Records(lines)) + [event]
  {
    MarkerComparesWithAll(lines, digest, event);
    SplitsExactly(Records(lines), [event]);
    ApartInTime(Records(lines), [event]);
    OneMerges(event);
  }

  /** Of a stream that is not in time it may refuse a record that merges behind all the same. */
  lemma MarkerMayRefuseForNothing(line: FinishedLine, digest: nat, event: Envelope)
    requires line.record == Some(Envelope(10, 1, 0, "node-held", None, "")) &&
      event == Envelope(5, 1, 1, "node-held", None, "")
    ensures !IsInFrontOf(Covering([line], digest), event)
    ensures Merged(Records([line]) + [event]) == Merged(Records([line])) + [event]
  {
    assert [line][..0] == [];
    assert Records([line]) == [line.record.value];
    assert Records([line]) + [event] == [line.record.value, event];
    MarkerComparesWithAll([line], digest, event);
    OutOfTimeMayStillSplit(line.record.value, event);
    assert !AllInFront(Records([line]), [event]) by {
      assert !InFront(Records([line])[0], [event][0]);
    }
    OneMerges(event);
  }

  // ---- the open instant --------------------------------------------------

  lemma OrderlyIsInTime(events: seq<Envelope>)
    requires Orderly(events)
    ensures InTime(events)
  {
    forall i, j | 0 <= i < |events| && 0 <= j < |events| && events[i].stream == events[j].stream &&
      Earlier(events, i, j)
      ensures events[i].ts <= events[j].ts
    {
    }
  }

  /** A record of the last instant, and a stream less than its own. */
  ghost predicate IsOpen(events: seq<Envelope>, r: nat, lesser: nat) {
    r < |events| && events[r].ts == events[|events| - 1].ts && lesser < events[r].stream
  }

  function Highest(events: seq<Envelope>): (number: nat)
    ensures forall i :: 0 <= i < |events| ==> events[i].number <= number
  {
    if events == [] then 0
    else
      var rest := Highest(events[1..]);
      assert events == [events[0]] + events[1..];
      if events[0].number > rest then events[0].number else rest
  }

  /**
   Why the open instant is held back: wherever it holds a record of a stream that is not the
   least, a record of a lesser stream may still arrive in order, and a reader that had covered
   the instant folds it out of order; one that held it back does not.
   */
  lemma CoveringTheOpenInstantReorders(lines: seq<FinishedLine>, r: nat, lesser: nat) returns (next: FinishedLine)
    requires Orderly(Records(lines)) && IsOpen(Records(lines), r, lesser)
    ensures next.record.Some? && Orderly(Records(lines + [next]))
    ensures Extent(lines, Covered) == |lines| && ValidCuts([|lines|], |lines + [next]|)
    ensures OrderOver(lines + [next], [|lines|]) != Merged(Records(lines + [next]))
    ensures var held := Extent(lines, HeldBack);
      ValidCuts([held], |lines + [next]|) && OrderOver(lines + [next], [held]) == Merged(Records(lines + [next]))
  {
    var events := Records(lines);
    var event := Envelope(events[|events| - 1].ts, lesser, Highest(events), "node-held", None, "");
    next := FinishedLine(Some(event), 1, None);
    var all := lines + [next];
    OneRecord(next);
    RecordsJoin(lines, [next]);
    OneMoreIsOrderly(events, event);
    Halves(all, lines, [next]);
    CoveredTooSoon(lines, next, all, r);
    HeldBackLeavesNoTrace(lines, all);
  }

  lemma OneRecord(line: FinishedLine)
    requires line.record.Some?
    ensures Records([line]) == [line.record.value]
  {
    assert [line][..0] == [];
  }

  lemma CoveredTooSoon(lines: seq<FinishedLine>, next: FinishedLine, all: seq<FinishedLine>, r: nat)
    requires all == lines + [next] && all[..|lines|] == lines && Orderly(Records(all)) && next.record.Some?
    requires r < |Records(lines)| && !InFront(Records(lines)[r], next.record.value)
    ensures ValidCuts([|lines|], |all|) && OrderOver(all, [|lines|]) != Merged(Records(all))
  {
    var cut := |lines|;
    OneRecord(next);
    assert all[cut..] == [next];
    assert Records(all[..cut])[r] == Records(lines)[r] && Records(all[cut..])[0] == next.record.value;
    assert !InFrontAt(all, cut);
    OrderlyIsInTime(Records(all));
    CutsInTime(all, cut);
    CutsLeaveNoTraceExactly(all, [cut]);
    assert [cut][0] == cut;
  }

  lemma OneMoreIsOrderly(events: seq<Envelope>, event: Envelope)
    requires Orderly(events) && events != [] && event.ts == events[|events| - 1].ts && event.number == Highest(events)
    ensures Orderly(events + [event])
  {
    var all := events + [event];
    forall i, j | 0 <= i < j < |all|
      ensures all[i].ts <= all[j].ts && (all[i].stream == all[j].stream ==> all[i].number <= all[j].number)
    {
      if j == |events| && i < |events| - 1 {
        assert events[i].ts <= events[|events| - 1].ts;
      }
    }
  }

  /** What a reader held back is folded in order with whatever orderly follows. */
  lemma HeldBackLeavesNoTrace(lines: seq<FinishedLine>, longer: seq<FinishedLine>)
    requires lines <= longer && Orderly(Records(longer))
    ensures ValidCuts([Extent(lines, HeldBack)], |longer|)
    ensures OrderOver(longer, [Extent(lines, HeldBack)]) == Merged(Records(longer))
  {
    var cut := Extent(lines, HeldBack);
    OrderlyBefore(lines, longer);
    NothingBefore(lines);
    assert lines[0..] == lines;
    HeldBackIsBetween(lines, 0, lines, cut);
    BetweenStays(lines, longer, cut);
    BetweenIsInFront(longer, cut);
    CutsLeaveNoTrace(longer, [cut]);
  }
}
