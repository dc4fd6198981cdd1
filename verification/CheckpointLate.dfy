/**
 Two runs whose reads are not the whole-store fold (src/checkpoint.rs, the module note and
 `refresh`): a record that arrives late, and a journal cut back and regrown unnoticed.
 */
module CheckpointLate {
  import opened Checkpoint
  import opened CheckpointExact
  import opened CheckpointCuts
  import opened CheckpointHistory
  import opened CheckpointRuns
  import opened Coverage
  import opened Folding
  import opened Journal
  import opened Merging
  import opened MergeExact
  import opened MergeSplit
  import opened Wrappers

  // ---- a late record -----------------------------------------------------

  /** A fold that keeps every record, in the order it folded them. */
  ghost predicate Remembers<A(!new)>(fold: Fold<seq<Envelope>, A>) {
    fold.empty == [] && forall state, event :: fold.step(state, event) == state + [event]
  }

  lemma {:induction false} StateIsTheOrder<A(!new)>(fold: Fold<seq<Envelope>, A>, order: seq<Envelope>)
    requires Remembers(fold)
    ensures StateOver(fold, fold.empty, order) == order
    decreases |order|
  {
    if order != [] {
      StateIsTheOrder(fold, order[..|order| - 1]);
      assert order == order[..|order| - 1] + [order[|order| - 1]];
    }
  }

  function LineOf(ts: nat, stream: nat, number: nat): Line {
    Line(Whole(Envelope(ts, stream, number, "node-held", None, "")), 1)
  }

  const FIRST := [LineOf(5, 0, 0), LineOf(7, 0, 1)]
  const LATE := [LineOf(5, 0, 0), LineOf(7, 0, 1), LineOf(3, 1, 0)]

  /** What the late journal's lines are, and where the marker stops in it before and after the late record. */
  lemma LateLines()
    ensures FIRST <= LATE && LinesSize(FIRST) == 4 && LinesSize(LATE) == 6
    ensures var lines := AllLines(File(LATE, None));
      && Records(lines) ==
        [Envelope(5, 0, 0, "node-held", None, ""), Envelope(7, 0, 1, "node-held", None, ""),
        Envelope(3, 1, 0, "node-held", None, "")]
      && |lines| == 3 && Records(lines[..1]) == [Envelope(5, 0, 0, "node-held", None, "")]
      && Records(lines[1..]) == [Envelope(7, 0, 1, "node-held", None, ""), Envelope(3, 1, 0, "node-held", None, "")]
    ensures NextCut(AllLines(File(FIRST, None)), []) == 1
  {
    var a, b, c := Finish(LATE[0], 0), Finish(LATE[1], 2), Finish(LATE[2], 4);
    ThreeLines();
    OneRecord(a);
    OneRecord(b);
    OneRecord(c);
    RecordsJoin([a], [b]);
    RecordsJoin([b], [c]);
    RecordsJoin([a], [b, c]);
    assert [a] + [b, c] == [a, b, c] && [b] + [c] == [b, c] && [a] + [b] == [a, b];
    assert [a, b, c][..1] == [a] && [a, b, c][1..] == [b, c];
    assert [a, b][0..] == [a, b] && [a, b][..1] == [a] && [a][..0] == [];
    assert LastTs([a, b]) == Some(7);
    assert ThroughOther([a, b], 7) == 1;
  }

  lemma ThreeLines()
    ensures AllLines(File(FIRST, None)) == [Finish(FIRST[0], 0), Finish(FIRST[1], 2)]
    ensures AllLines(File(LATE, None)) == [Finish(LATE[0], 0), Finish(LATE[1], 2), Finish(LATE[2], 4)]
    ensures LinesSize(FIRST) == 4 && LinesSize(LATE) == 6
  {
    assert FIRST[1..] == [FIRST[1]] && [FIRST[1]][1..] == [];
    assert LATE[1..] == [LATE[1], LATE[2]] && [LATE[1], LATE[2]][1..] == [LATE[2]] && [LATE[2]][1..] == [];
  }

  /** Refreshed after two records, and again after a third stamped earlier on a stream of its own. */
  lemma LateRun<A(!new)>(fold: Fold<seq<Envelope>, A>, run: string)
      returns (worlds: seq<World<seq<Envelope>, A>>, steps: seq<Step<seq<Envelope>, A>>)
    ensures IsRun(fold, run, worlds, steps)
    ensures steps == [Append(File(FIRST, None)), Refresh, Append(File(LATE, None)), Refresh]
    ensures worlds[1].file == worlds[2].file == File(FIRST, None) &&
      worlds[3].file == worlds[4].file == File(LATE, None)
  {
    var none, first, late := File([], None), File(FIRST, None), File(LATE, None);
    ThreeLines();
    assert LengthOf(none) == 0 && LengthOf(first) == 4 && LengthOf(late) == 6 && none.lines <= FIRST <= LATE;
    worlds, steps := RefreshedTwice(fold, run, none, first, late);
  }

  /** A run and one step more. */
  lemma GoesOn<S(!new), A(!new)>(
    fold: Fold<S, A>, run: string, worlds: seq<World<S, A>>, steps: seq<Step<S, A>>, step: Step<S, A>, w': World<S, A>
  )
    requires IsRun(fold, run, worlds, steps) && CheckpointHistory.Next(fold, run, worlds[|steps|], step, w')
    ensures IsRun(fold, run, worlds + [w'], steps + [step])
  {
    var all, longer := worlds + [w'], steps + [step];
    forall i | 0 <= i < |longer| ensures CheckpointHistory.Next(fold, run, all[i], longer[i], all[i + 1]) {
      if i < |steps| {
        assert CheckpointHistory.Next(fold, run, worlds[i], steps[i], worlds[i + 1]);
      }
    }
  }

  /** A run that goes on with an append and a refresh. */
  lemma ReadsOn<S(!new), A(!new)>(
    fold: Fold<S, A>, run: string, worlds: seq<World<S, A>>, steps: seq<Step<S, A>>, file: File
  ) returns (all: seq<World<S, A>>, longer: seq<Step<S, A>>)
    requires IsRun(fold, run, worlds, steps) && LengthOf(worlds[|steps|].file) <= U64_MAX && LengthOf(file) <= U64_MAX
    requires worlds[|steps|].file.lines <= file.lines
    ensures IsRun(fold, run, all, longer) && longer == steps + [Append(file), Refresh]
    ensures worlds <= all && all[|steps| + 1].file == all[|steps| + 2].file == file
  {
    var grown := worlds[|steps|].(file := file);
    var read := Refreshes(fold, run, grown);
    Grows(fold, run, worlds[|steps|], file);
    GoesOn(fold, run, worlds, steps, Append(file), grown);
    GoesOn(fold, run, worlds + [grown], steps + [Append(file)], Refresh, read);
    all, longer := worlds + [grown] + [read], steps + [Append(file)] + [Refresh];
    assert longer == steps + [Append(file), Refresh];
  }

  lemma StartsEmpty<S(!new), A(!new)>(fold: Fold<S, A>, run: string, none: File) returns (w: World<S, A>)
    requires LengthOf(none) <= U64_MAX
    ensures IsRun(fold, run, [w], []) && w.file == none
  {
    w := World(none, None, Empty(fold));
  }

  lemma RefreshedTwice<S(!new), A(!new)>(fold: Fold<S, A>, run: string, none: File, first: File, late: File)
      returns (worlds: seq<World<S, A>>, steps: seq<Step<S, A>>)
    requires LengthOf(none) <= U64_MAX && LengthOf(first) <= U64_MAX && LengthOf(late) <= U64_MAX
    requires none.lines <= first.lines <= late.lines
    ensures IsRun(fold, run, worlds, steps)
    ensures steps == [Append(first), Refresh, Append(late), Refresh]
    ensures worlds[1].file == worlds[2].file == first && worlds[3].file == worlds[4].file == late
  {
    var start := StartsEmpty(fold, run, none);
    var one, read := ReadsOn(fold, run, [start], [], first);
    worlds, steps := ReadsOn(fold, run, one, read, late);
  }

  lemma Grows<S(!new), A(!new)>(fold: Fold<S, A>, run: string, w: World<S, A>, file: File)
    requires LengthOf(w.file) <= U64_MAX && LengthOf(file) <= U64_MAX && w.file.lines <= file.lines
    ensures CheckpointHistory.Next(fold, run, w, Append(file), w.(file := file))
  {
  }

  lemma Refreshes<S(!new), A(!new)>(fold: Fold<S, A>, run: string, w: World<S, A>) returns (w': World<S, A>)
    requires LengthOf(w.file) <= U64_MAX
    ensures CheckpointHistory.Next(fold, run, w, Refresh, w') && w'.file == w.file
  {
    w' := w.(reader := Refreshed(fold, w.reader, w.file));
  }

  /** A record stamped before what a reader has covered is folded after it: that read is not the whole-store fold. */
  lemma LateRecordIsFoldedLate<A(!new)>(fold: Fold<seq<Envelope>, A>, run: string)
      returns (worlds: seq<World<seq<Envelope>, A>>, steps: seq<Step<seq<Envelope>, A>>)
    requires Remembers(fold)
    ensures IsRun(fold, run, worlds, steps) && |steps| == 4 && steps[1].Refresh? && steps[3].Refresh?
    ensures InTime(Records(AllLines(worlds[4].file)))
    ensures worlds[4].reader.state != Merged(Records(AllLines(worlds[4].file)))
    ensures !IsWholeStoreFold(fold, worlds[4])
  {
    worlds, steps := LateRun(fold, run);
    var lines, stops := AllLines(worlds[4].file), StopsOf(fold, run, worlds, steps, 4).reader.cuts;
    LateStops(fold, run, worlds, steps);
    LateIsInTime();
    GrowingReadsStand(fold, run, worlds, steps, 3);
    ReadIsWholeExactly(fold, run, worlds, steps, 3, lines, stops);
    LateIsBehind(stops[0]);
    CutsInTime(lines, stops[0]);
    StateIsTheOrder(fold, OrderOver(lines, stops));
    StateIsTheOrder(fold, Merged(Records(lines)));
  }

  lemma LateIsInTime()
    ensures InTime(Records(AllLines(File(LATE, None))))
  {
    LateLines();
  }

  lemma LateIsBehind(stop: nat)
    requires stop == 1
    ensures stop <= |AllLines(File(LATE, None))| && !InFrontAt(AllLines(File(LATE, None)), stop)
  {
    LateLines();
    var lines := AllLines(File(LATE, None));
    assert !InFront(Records(lines[..1])[0], Records(lines[1..])[1]);
  }

  /** The first refresh stops past the first record, and holds the second back. */
  lemma FirstStop<S(!new), A(!new)>(
    fold: Fold<S, A>, run: string, worlds: seq<World<S, A>>, steps: seq<Step<S, A>>
  )
    requires IsRun(fold, run, worlds, steps) && |steps| >= 2 && steps[0].Append? && steps[1].Refresh?
    requires worlds[1].file == File(FIRST, None)
    ensures StopsOf(fold, run, worlds, steps, 2).reader == Through(AllLines(File(FIRST, None)), [1])
  {
    LateLines();
    StopsGoOn(fold, run, worlds, steps, 0);
    GrowingRefreshStops(fold, run, worlds, steps, 1, []);
    assert [] + [1] == [1];
  }

  lemma LateStops<A(!new)>(
    fold: Fold<seq<Envelope>, A>, run: string, worlds: seq<World<seq<Envelope>, A>>, steps: seq<Step<seq<Envelope>, A>>
  )
    requires IsRun(fold, run, worlds, steps)
    requires steps == [Append(File(FIRST, None)), Refresh, Append(File(LATE, None)), Refresh]
    requires worlds[1].file == File(FIRST, None)
    ensures var cuts := StopsOf(fold, run, worlds, steps, 4).reader.cuts; |cuts| == 2 && cuts[0] == 1
  {
    FirstStop(fold, run, worlds, steps);
    StopsGoOn(fold, run, worlds, steps, 2);
    GrowingRefreshStops(fold, run, worlds, steps, 3, [1]);
  }

  // ---- a journal cut back and regrown ------------------------------------

  const REGROWN := [LineOf(6, 0, 0), LineOf(7, 0, 1)]

  lemma RegrownLines()
    ensures LinesSize(REGROWN) == 4
    ensures AllLines(File(FIRST, None))[..1] == [Finish(FIRST[0], 0)] && Finish(FIRST[0], 0).bytes == 2
    ensures AllLines(File(REGROWN, None)) == [Finish(REGROWN[0], 0), Finish(REGROWN[1], 2)]
    ensures Finish(FIRST[0], 0).record == Some(Envelope(5, 0, 0, "node-held", None, ""))
    ensures Records(AllLines(File(REGROWN, None)))
         == [Envelope(6, 0, 0, "node-held", None, ""), Envelope(7, 0, 1, "node-held", None, "")]
  {
    ThreeLines();
    assert REGROWN[1..] == [REGROWN[1]] && [REGROWN[1]][1..] == [];
    var a, b := Finish(REGROWN[0], 0), Finish(REGROWN[1], 2);
    OneRecord(a);
    OneRecord(b);
    RecordsJoin([a], [b]);
    assert [a] + [b] == [a, b];
  }

  /**
   Refreshed after two records; cut back to nothing, and grown again past the marker, before it is
   refreshed again.
   */
  lemma RegrownRun<S(!new), A(!new)>(fold: Fold<S, A>, run: string)
      returns (worlds: seq<World<S, A>>, steps: seq<Step<S, A>>)
    ensures IsRun(fold, run, worlds, steps)
    ensures steps == [Append(File(FIRST, None)), Refresh, Replace(File([], None)), Append(File(REGROWN, None)), Refresh]
    ensures worlds[1].file == File(FIRST, None) && worlds[4].file == worlds[5].file == File(REGROWN, None)
  {
    var none, first, regrown := File([], None), File(FIRST, None), File(REGROWN, None);
    RegrownLines();
    ThreeLines();
    assert LengthOf(none) == 0 && LengthOf(first) == 4 && LengthOf(regrown) == 4;
    worlds, steps := CutBackAndRegrown(fold, run, none, first, regrown);
  }

  lemma CutBackAndRegrown<S(!new), A(!new)>(fold: Fold<S, A>, run: string, none: File, first: File, regrown: File)
      returns (worlds: seq<World<S, A>>, steps: seq<Step<S, A>>)
    requires LengthOf(none) <= U64_MAX && LengthOf(first) <= U64_MAX && LengthOf(regrown) <= U64_MAX
    requires none.lines <= first.lines && none.lines <= regrown.lines
    ensures IsRun(fold, run, worlds, steps)
    ensures steps == [Append(first), Refresh, Replace(none), Append(regrown), Refresh]
    ensures worlds[1].file == first && worlds[4].file == worlds[5].file == regrown
  {
    var start := StartsEmpty(fold, run, none);
    var one, read := ReadsOn(fold, run, [start], [], first);
    var cut := one[2].(file := none);
    IsCut(fold, run, one[2], none);
    GoesOn(fold, run, one, read, Replace(none), cut);
    worlds, steps := ReadsOn(fold, run, one + [cut], read + [Replace(none)], regrown);
  }

  lemma IsCut<S(!new), A(!new)>(fold: Fold<S, A>, run: string, w: World<S, A>, file: File)
    requires LengthOf(w.file) <= U64_MAX && LengthOf(file) <= U64_MAX
    ensures CheckpointHistory.Next(fold, run, w, Replace(file), w.(file := file))
  {
  }

  /** What the reader covers when the regrown journal is read: a line that is no longer there. */
  lemma RegrownStops<S(!new), A(!new)>(
    fold: Fold<S, A>, run: string, worlds: seq<World<S, A>>, steps: seq<Step<S, A>>
  )
    requires IsRun(fold, run, worlds, steps)
    requires steps ==
      [Append(File(FIRST, None)), Refresh, Replace(File([], None)), Append(File(REGROWN, None)), Refresh]
    requires worlds[1].file == File(FIRST, None)
    ensures StopsOf(fold, run, worlds, steps, 4).reader == Marker([1], [Finish(FIRST[0], 0)])
  {
    RegrownLines();
    FirstStop(fold, run, worlds, steps);
    StopsGoOn(fold, run, worlds, steps, 2);
    StopsGoOn(fold, run, worlds, steps, 3);
  }

  /** A journal cut back and regrown past the marker is not noticed: the read keeps a record it no longer holds. */
  lemma RegrownIsUnnoticed<A(!new)>(fold: Fold<seq<Envelope>, A>, run: string)
      returns (worlds: seq<World<seq<Envelope>, A>>, steps: seq<Step<seq<Envelope>, A>>)
    requires Remembers(fold)
    ensures IsRun(fold, run, worlds, steps) && |steps| == 5 && steps[2].Replace? && steps[4].Refresh?
    ensures !StandsAt(fold, run, worlds, steps, 4)
    ensures !IsWholeStoreFold(fold, worlds[5])
  {
    worlds, steps := RegrownRun(fold, run);
    var gone := Finish(FIRST[0], 0);
    RegrownLines();
    RegrownStops(fold, run, worlds, steps);
    RunIsSound(fold, run, worlds, steps, 4);
    CoversOneLine(fold, worlds[4].reader, gone);
    EveryReadIsExact(fold, run, worlds, steps, 4, worlds[5]);
    var lines, cuts := ReadAt(fold, run, worlds, steps, 4), StopsOf(fold, run, worlds, steps, 5).reader.cuts;
    KeepsWhatItCovered(lines, cuts, gone);
    StateIsTheOrder(fold, OrderOver(lines, cuts));
    StateIsTheOrder(fold, Merged(Records(AllLines(worlds[5].file))));
    NotOfTheRegrown(gone.record.value);
  }

  lemma OneLineSize(line: FinishedLine)
    ensures SizeOf([line]) == line.bytes
  {
    assert [line][..0] == [];
  }

  lemma CoversOneLine<S(!new), A(!new)>(fold: Fold<S, A>, cached: Cached<S, A>, line: FinishedLine)
    requires Marked(fold, cached, Marker([1], [line]))
    ensures cached.coverage.bytes == line.bytes
  {
    CoveringIsExact([line], cached.coverage.digest);
    OneLineSize(line);
    assert [line][..1] == [line];
  }

  lemma KeepsWhatItCovered(lines: seq<FinishedLine>, cuts: seq<nat>, line: FinishedLine)
    requires ValidCuts(cuts, |lines|) && line.record.Some? && lines != [] && lines[0] == line
    ensures line.record.value in OrderOver(lines, cuts)
  {
    RecordsAre(lines, line.record.value);
    OrderIsPermutation(lines, cuts);
    assert line.record.value in multiset(Records(lines));
  }

  lemma NotOfTheRegrown(event: Envelope)
    requires event == Envelope(5, 0, 0, "node-held", None, "")
    ensures event !in Merged(Records(AllLines(File(REGROWN, None))))
  {
    RegrownLines();
    NotMerged(Records(AllLines(File(REGROWN, None))), event);
  }

  lemma NotMerged(records: seq<Envelope>, event: Envelope)
    requires event !in records
    ensures event !in Merged(records)
  {
    MergedIsPermutation(records);
    assert event !in multiset(records);
  }
}
