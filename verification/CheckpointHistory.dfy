/**
 The cached fold agrees with the whole-store fold (src/checkpoint.rs): over every run of
 appends, refreshes, re-openings and ended folds, what a read holds, and when that is it.
 */
module CheckpointHistory {
  import opened Checkpoint
  import opened CheckpointCuts
  import opened CheckpointEnded
  import opened CheckpointRuns
  import opened Coverage
  import opened Folding
  import opened Journal
  import opened MergeExact
  import opened Merging
  import opened MergeSplit
  import opened Wrappers

  /** A run's journal, the document beside it, and one long-lived reader. */
  datatype World<S, A> = World(file: File, document: Option<Document<S, A>>, reader: Cached<S, A>)

  datatype Step<S, A> =
    | Append(file: File)                             // the journal grows, or its unfinished tail changes
    | Replace(file: File)                            // it is cut back, edited, or put another in its place
    | Refresh                                        // the reader folds what it grew by
    | Reopen                                         // the reader is dropped, and opened again
    | Beside                                         // another reader opens the run and closes it
    | End                                            // another folds it as ended, its last instant too
    | Damage(document: Option<Document<S, A>>)       // the document is lost, or replaced by one refused

  /** Whether a document is one no reader of this build and run resumes from, whatever the journal holds. */
  ghost predicate Refused<S(!new), A(!new)>(fold: Fold<S, A>, run: string, document: Document<S, A>) {
    || document.version != CHECKPOINT_SCHEMA_VERSION
    || document.run != run
    || SealedWith(fold, document.coverage, document.state, document.tally) != document.coverage.digest
  }

  /** Whether a reader that holds `cached` may have written it: writing is best effort. */
  ghost predicate Written<S(!new), A(!new)>(
    run: string, before: Option<Document<S, A>>, after: Option<Document<S, A>>, cached: Cached<S, A>
  ) {
    after == before || after == Some(DocumentOf(run, cached))
  }

  ghost predicate Next<S(!new), A(!new)>(
    fold: Fold<S, A>, run: string, w: World<S, A>, step: Step<S, A>, w': World<S, A>
  ) {
    && LengthOf(w.file) <= U64_MAX
    && LengthOf(w'.file) <= U64_MAX
    && match step
       case Append(file) =>
         w.file.lines <= file.lines && w' == w.(file := file)
       case Replace(file) =>
         w' == w.(file := file)
       case Refresh =>
         var reader := Refreshed(fold, w.reader, w.file);
         w' == w.(reader := reader, document := w'.document) && Written(run, w.document, w'.document, reader)
       case Reopen =>
         var reader := Opened(fold, run, w.document, w.file);
         w' == w.(reader := reader, document := w'.document) && Written(run, w.document, w'.document, reader)
       case Beside =>
         w' == w.(document := w'.document)
         && Written(run, w.document, w'.document, Opened(fold, run, w.document, w.file))
       case End =>
         var reader := Opened(fold, run, w.document, w.file);
         w' == w.(document := w'.document)
         && (Written(run, w.document, w'.document, reader) ||
           Written(run, w.document, w'.document, Ended(fold, reader, w.file)))
       case Damage(document) =>
         (document.None? || Refused(fold, run, document.value)) && w' == w.(document := document)
  }

  ghost predicate IsRun<S(!new), A(!new)>(
    fold: Fold<S, A>, run: string, worlds: seq<World<S, A>>, steps: seq<Step<S, A>>
  ) {
    && |worlds| == |steps| + 1
    && worlds[0].document == None
    && worlds[0].reader == Empty(fold)
    && LengthOf(worlds[0].file) <= U64_MAX
    && forall i :: 0 <= i < |steps| ==> Next(fold, run, worlds[i], steps[i], worlds[i + 1])
  }

  // ---- what a read finds -------------------------------------------------

  /** Where a fold's marker stopped, each time, and the lines it covers. */
  datatype Marker = Marker(cuts: seq<nat>, covered: seq<FinishedLine>)

  /** Whether a fold holds just what its marker covers. */
  ghost predicate Marked<S(!new), A(!new)>(fold: Fold<S, A>, cached: Cached<S, A>, marker: Marker) {
    && ValidCuts(marker.cuts, |marker.covered|) && LastCut(marker.cuts) == |marker.covered|
    && Holds(fold, cached, marker.covered, marker.cuts)
  }

  /** The marker of a fold that took `lines`, stopping at `cuts`: it covers them up to the last. */
  function Through(lines: seq<FinishedLine>, cuts: seq<nat>): Marker {
    Marker(cuts, if LastCut(cuts) <= |lines| then lines[..LastCut(cuts)] else lines)
  }

  lemma ThroughIsMarked<S(!new), A(!new)>(
    fold: Fold<S, A>, cached: Cached<S, A>, lines: seq<FinishedLine>, cuts: seq<nat>
  )
    requires Holds(fold, cached, lines, cuts)
    ensures Marked(fold, cached, Through(lines, cuts))
  {
    ValidToTheLast(cuts, |lines|);
    HoldsAsItGrows(fold, cached, Through(lines, cuts).covered, lines, cuts);
  }

  lemma ValidToTheLast(cuts: seq<nat>, n: nat)
    requires ValidCuts(cuts, n)
    ensures LastCut(cuts) <= n && ValidCuts(cuts, LastCut(cuts))
  {
  }

  /** The lines a fold has taken once it is refreshed: all there are, or what it covered and what it finds past that. */
  function Found<S, A>(cached: Cached<S, A>, marker: Marker, file: File): seq<FinishedLine> {
    if LengthOf(file) < cached.coverage.bytes then AllLines(file)
    else marker.covered + FinishedLinesFrom(file, cached.coverage.bytes)
  }

  /** The cuts that leaves: the rebuild's windows' or those it had, and the one it then makes. */
  function NextCuts<S, A>(cached: Cached<S, A>, marker: Marker, file: File): seq<nat>
    requires LengthOf(file) <= U64_MAX
  {
    var before := if LengthOf(file) < cached.coverage.bytes then RebuildCuts(file, []) else marker.cuts;
    before + [NextCut(Found(cached, marker, file), before)]
  }

  /** A refresh holds just what it found, whatever has become of the journal. */
  lemma RefreshReads<S(!new), A(!new)>(fold: Fold<S, A>, cached: Cached<S, A>, marker: Marker, file: File)
    requires LengthOf(file) <= U64_MAX && Marked(fold, cached, marker)
    ensures Current(fold, Refreshed(fold, cached, file), Found(cached, marker, file), NextCuts(cached, marker, file))
  {
    if LengthOf(file) < cached.coverage.bytes {
      RefreshRereads(fold, cached, marker, file);
    } else {
      RefreshReadsOn(fold, cached, marker, file, Found(cached, marker, file));
    }
  }

  lemma RefreshRereads<S(!new), A(!new)>(fold: Fold<S, A>, cached: Cached<S, A>, marker: Marker, file: File)
    requires LengthOf(file) <= U64_MAX && LengthOf(file) < cached.coverage.bytes
    ensures Current(fold, Refreshed(fold, cached, file), Found(cached, marker, file), NextCuts(cached, marker, file))
  {
    var before, cut := CutBackIsRefolded(fold, cached, file);
    assert NextCuts(cached, marker, file) == before + [cut];
  }

  lemma RefreshReadsOn<S(!new), A(!new)>(
    fold: Fold<S, A>, cached: Cached<S, A>, marker: Marker, file: File, lines: seq<FinishedLine>
  )
    requires cached.coverage.bytes <= LengthOf(file) <= U64_MAX
    requires Marked(fold, cached, marker) && lines == Found(cached, marker, file)
    ensures Current(fold, Refreshed(fold, cached, file), lines, NextCuts(cached, marker, file))
  {
    var cut := TookPast(fold, cached, marker, file, lines, HeldBack);
    NextCutsAre(cached, marker, file, lines, cut);
    RefreshedIs(fold, cached, file);
  }

  lemma RefreshedIs<S, A>(fold: Fold<S, A>, cached: Cached<S, A>, file: File)
    requires cached.coverage.bytes <= LengthOf(file) <= U64_MAX
    ensures Refreshed(fold, cached, file)
         == Took(fold, cached, FinishedLinesFrom(file, cached.coverage.bytes), HeldBack)
  {
  }

  lemma NextCutsAre<S, A>(cached: Cached<S, A>, marker: Marker, file: File, lines: seq<FinishedLine>, cut: nat)
    requires cached.coverage.bytes <= LengthOf(file) <= U64_MAX && lines == Found(cached, marker, file)
    requires LastCut(marker.cuts) == |marker.covered| <= |lines|
    requires cut == |marker.covered| + Extent(lines[|marker.covered|..], HeldBack)
    ensures NextCuts(cached, marker, file) == marker.cuts + [cut]
  {
  }

  /** What a fold takes past its marker, whatever it holds back of it, goes on with what it covers. */
  lemma TookPast<S(!new), A(!new)>(
    fold: Fold<S, A>, cached: Cached<S, A>, marker: Marker, file: File, lines: seq<FinishedLine>, instant: OpenInstant
  ) returns (cut: nat)
    requires Marked(fold, cached, marker)
    requires lines == marker.covered + FinishedLinesFrom(file, cached.coverage.bytes)
    ensures |marker.covered| <= cut == |marker.covered| + Extent(lines[|marker.covered|..], instant) <= |lines|
    ensures Current(fold, Took(fold, cached, FinishedLinesFrom(file, cached.coverage.bytes), instant), lines,
                    marker.cuts + [cut])
  {
    HoldsAsItGrows(fold, cached, marker.covered, lines, marker.cuts);
    Halves(lines, marker.covered, FinishedLinesFrom(file, cached.coverage.bytes));
    cut := TookIsCurrent(fold, cached, lines, marker.cuts, instant);
  }

  /**
   What it found is the journal exactly where that is shorter than the marker, or still begins with
   what is covered.
   */
  lemma FindsTheFileExactly<S(!new), A(!new)>(fold: Fold<S, A>, cached: Cached<S, A>, marker: Marker, file: File)
    requires Marked(fold, cached, marker)
    ensures Found(cached, marker, file) == AllLines(file) <==>
              LengthOf(file) < cached.coverage.bytes || marker.covered <= AllLines(file)
    ensures marker.covered <= AllLines(file) ==>
              && cached.coverage.bytes <= LengthOf(file)
              && marker.covered + FinishedLinesFrom(file, cached.coverage.bytes) == AllLines(file)
  {
    if marker.covered <= AllLines(file) {
      PrefixIsRead(fold, cached, marker, file);
    }
  }

  lemma PrefixIsRead<S(!new), A(!new)>(fold: Fold<S, A>, cached: Cached<S, A>, marker: Marker, file: File)
    requires Marked(fold, cached, marker) && marker.covered <= AllLines(file)
    ensures cached.coverage.bytes <= LengthOf(file)
    ensures marker.covered + FinishedLinesFrom(file, cached.coverage.bytes) == AllLines(file)
  {
    HoldsAsItGrows(fold, cached, marker.covered, AllLines(file), marker.cuts);
    MarkerWithin(fold, cached, file, marker.cuts);
    PrefixJoins(AllLines(file), marker.covered, FinishedLinesFrom(file, cached.coverage.bytes));
  }

  lemma PrefixJoins<T>(whole: seq<T>, front: seq<T>, rest: seq<T>)
    requires front <= whole && rest == whole[|front|..]
    ensures front + rest == whole
  {
  }

  // ---- where the markers stopped -----------------------------------------

  /** The reader's marker, and the one of the document it or another wrote. */
  datatype Stops = Stops(reader: Marker, document: Marker)

  const NO_MARKER := Marker([], [])

  /** The lines a reader that opens a run takes: past the document's marker, or all there are. */
  function OpeningLines<S, A>(fold: Fold<S, A>, run: string, w: World<S, A>, marker: Marker): seq<FinishedLine> {
    if Usable(fold, run, w.document, w.file) && w.document.value.coverage.bytes > 0 then
      Found(Resumed(w.document.value), marker, w.file)
    else AllLines(w.file)
  }

  /** Its cuts: the document's or the rebuild's windows', and the one it then makes. */
  function OpeningCuts<S, A>(fold: Fold<S, A>, run: string, w: World<S, A>, marker: Marker): seq<nat>
    requires LengthOf(w.file) <= U64_MAX
  {
    var before := StartingCuts(fold, run, w.document, w.file, marker.cuts);
    before + [NextCut(OpeningLines(fold, run, w, marker), before)]
  }

  function Opening<S, A>(fold: Fold<S, A>, run: string, w: World<S, A>, marker: Marker): Marker
    requires LengthOf(w.file) <= U64_MAX
  {
    Through(OpeningLines(fold, run, w, marker), OpeningCuts(fold, run, w, marker))
  }

  /** The marker of a reader that refreshes. */
  function Refreshing<S, A>(w: World<S, A>, marker: Marker): Marker
    requires LengthOf(w.file) <= U64_MAX
  {
    Through(Found(w.reader, marker, w.file), NextCuts(w.reader, marker, w.file))
  }

  /** The marker of an ended fold: of what opening covered, and all it finds past that. */
  ghost function Ending<S, A>(fold: Fold<S, A>, run: string, w: World<S, A>, marker: Marker): Marker
    requires LengthOf(w.file) <= U64_MAX
  {
    var before := Opening(fold, run, w, marker);
    var lines := before.covered + FinishedLinesFrom(w.file, Opened(fold, run, w.document, w.file).coverage.bytes);
    Marker(EndedCuts(lines, before.cuts), lines)
  }

  /** The marker a step leaves its reader with, or the reader it opens. */
  function ReadMarker<S, A>(fold: Fold<S, A>, run: string, w: World<S, A>, step: Step<S, A>, stops: Stops): Marker
    requires LengthOf(w.file) <= U64_MAX
  {
    if step.Refresh? then Refreshing(w, stops.reader) else Opening(fold, run, w, stops.document)
  }

  /** What one step adds to the stops: each is settled by the journal it is made in and the stops before. */
  ghost function StopsAfter<S(!new), A(!new)>(
    fold: Fold<S, A>, run: string, w: World<S, A>, step: Step<S, A>, w': World<S, A>, stops: Stops
  ): Stops
    requires LengthOf(w.file) <= U64_MAX
  {
    if step.Append? || step.Replace? || step.Damage? then stops
    else
      var marker := ReadMarker(fold, run, w, step, stops);
      Stops(if step.Refresh? || step.Reopen? then marker else stops.reader,
            if w'.document == w.document then stops.document
            else if step.End? && w'.document != Some(DocumentOf(run, Opened(fold, run, w.document, w.file))) then
              Ending(fold, run, w, stops.document)
            else marker)
  }

  ghost function StopsOf<S(!new), A(!new)>(
    fold: Fold<S, A>, run: string, worlds: seq<World<S, A>>, steps: seq<Step<S, A>>, n: nat
  ): Stops
    requires IsRun(fold, run, worlds, steps) && n <= |steps|
  {
    if n == 0 then Stops(NO_MARKER, NO_MARKER)
    else
      assert Next(fold, run, worlds[n - 1], steps[n - 1], worlds[n - 1 + 1]);
      StopsAfter(fold, run, worlds[n - 1], steps[n - 1], worlds[n], StopsOf(fold, run, worlds, steps, n - 1))
  }

  /** The lines a step's reader has taken once it has read. */
  function ReadIn<S, A>(
    fold: Fold<S, A>, run: string, w: World<S, A>, step: Step<S, A>, stops: Stops
  ): seq<FinishedLine> {
    if step.Refresh? then Found(w.reader, stops.reader, w.file) else OpeningLines(fold, run, w, stops.document)
  }

  /**
   Whether the journal a step reads still holds what the fold it reads on from covers: it
   begins with those lines, or is shorter and so read anew.
   */
  ghost predicate Stands<S, A>(fold: Fold<S, A>, run: string, w: World<S, A>, step: Step<S, A>, stops: Stops) {
    if step.Refresh? then LengthOf(w.file) < w.reader.coverage.bytes || stops.reader.covered <= AllLines(w.file)
    else
      Usable(fold, run, w.document, w.file) && w.document.value.coverage.bytes > 0 ==>
        stops.document.covered <= AllLines(w.file)
  }

  // ---- what every step keeps ---------------------------------------------

  ghost predicate DocumentHolds<S(!new), A(!new)>(
    fold: Fold<S, A>, run: string, document: Option<Document<S, A>>, marker: Marker
  ) {
    document.None? || Refused(fold, run, document.value) || Marked(fold, Resumed(document.value), marker)
  }

  /**
   The reader and the document each hold the fold of the lines they cover, each piece between stops
   in its own order.
   */
  ghost predicate Sound<S(!new), A(!new)>(fold: Fold<S, A>, run: string, w: World<S, A>, stops: Stops) {
    && Marked(fold, w.reader, stops.reader)
    && DocumentHolds(fold, run, w.document, stops.document)
  }

  /** A reader that opens a run holds just what it found there. */
  lemma OpenReads<S(!new), A(!new)>(fold: Fold<S, A>, run: string, w: World<S, A>, marker: Marker)
    requires LengthOf(w.file) <= U64_MAX && DocumentHolds(fold, run, w.document, marker)
    ensures Current(fold, Opened(fold, run, w.document, w.file), OpeningLines(fold, run, w, marker),
                    OpeningCuts(fold, run, w, marker))
    ensures Marked(fold, Opened(fold, run, w.document, w.file), Opening(fold, run, w, marker))
  {
    if !Usable(fold, run, w.document, w.file) {
      var before, cut, longer := OpenedIsCurrent(fold, run, w.document, w.file, []);
    } else if w.document.value.coverage.bytes > 0 {
      RefreshReads(fold, Resumed(w.document.value), marker, w.file);
    } else {
      NothingCovered(fold, Resumed(w.document.value), marker, w.file);
      var before, cut, longer := OpenedIsCurrent(fold, run, w.document, w.file, marker.cuts);
    }
    ThroughIsMarked(fold, Opened(fold, run, w.document, w.file), OpeningLines(fold, run, w, marker),
      OpeningCuts(fold, run, w, marker));
  }

  lemma NothingCovered<S(!new), A(!new)>(fold: Fold<S, A>, cached: Cached<S, A>, marker: Marker, file: File)
    requires Marked(fold, cached, marker) && cached.coverage.bytes == 0
    ensures marker.covered == [] && Holds(fold, cached, AllLines(file), marker.cuts)
  {
    var covered := marker.covered;
    CoveringIsExact(covered[..LastCut(marker.cuts)], cached.coverage.digest);
    assert covered[..|covered|] == covered;
    if covered != [] {
      SizeGrows(covered);
    }
    HoldsAsItGrows(fold, cached, covered, AllLines(file), marker.cuts);
  }

  /** An ended fold covers what it opened on and what it found past that. */
  lemma EndReads<S(!new), A(!new)>(fold: Fold<S, A>, run: string, w: World<S, A>, marker: Marker)
    requires LengthOf(w.file) <= U64_MAX && DocumentHolds(fold, run, w.document, marker)
    ensures Marked(fold, Ended(fold, Opened(fold, run, w.document, w.file), w.file), Ending(fold, run, w, marker))
  {
    OpenReads(fold, run, w, marker);
    EndedCovers(fold, Opened(fold, run, w.document, w.file), Opening(fold, run, w, marker), w.file,
      Ending(fold, run, w, marker).covered);
  }

  lemma EndedCovers<S(!new), A(!new)>(
    fold: Fold<S, A>, cached: Cached<S, A>, marker: Marker, file: File, lines: seq<FinishedLine>
  )
    requires Marked(fold, cached, marker)
    requires lines == marker.covered + FinishedLinesFrom(file, cached.coverage.bytes)
    ensures Marked(fold, Ended(fold, cached, file), Marker(EndedCuts(lines, marker.cuts), lines))
  {
    if FinishedLinesFrom(file, cached.coverage.bytes) == [] {
      assert lines == marker.covered;
    } else {
      var cut := TookPast(fold, cached, marker, file, lines, Covered);
      assert cut == |lines| != LastCut(marker.cuts);
    }
  }

  lemma DocumentIsMarked<S(!new), A(!new)>(fold: Fold<S, A>, run: string, cached: Cached<S, A>, marker: Marker)
    requires Marked(fold, cached, marker)
    ensures DocumentHolds(fold, run, Some(DocumentOf(run, cached)), marker)
  {
  }

  /** What a reader that holds `cached` leaves in the document's place holds what the stops say of it. */
  lemma WrittenIsMarked<S(!new), A(!new)>(
    fold: Fold<S, A>, run: string, before: Option<Document<S, A>>, after: Option<Document<S, A>>,
    cached: Cached<S, A>, was: Marker, marker: Marker
  )
    requires DocumentHolds(fold, run, before, was) && Written(run, before, after, cached)
    requires Marked(fold, cached, marker)
    ensures DocumentHolds(fold, run, after, if after == before then was else marker)
  {
    if after != before {
      DocumentIsMarked(fold, run, cached, marker);
    }
  }

  lemma RefreshIsSound<S(!new), A(!new)>(
    fold: Fold<S, A>, run: string, w: World<S, A>, document: Option<Document<S, A>>, stops: Stops
  )
    requires LengthOf(w.file) <= U64_MAX && Sound(fold, run, w, stops)
    requires Written(run, w.document, document, Refreshed(fold, w.reader, w.file))
    ensures Marked(fold, Refreshed(fold, w.reader, w.file), Refreshing(w, stops.reader))
    ensures DocumentHolds(fold, run, document,
                          if document == w.document then stops.document else Refreshing(w, stops.reader))
    ensures Current(fold, Refreshed(fold, w.reader, w.file), Found(w.reader, stops.reader, w.file),
                    NextCuts(w.reader, stops.reader, w.file))
  {
    RefreshReads(fold, w.reader, stops.reader, w.file);
    ThroughIsMarked(fold, Refreshed(fold, w.reader, w.file), Found(w.reader, stops.reader, w.file),
      NextCuts(w.reader, stops.reader, w.file));
    WrittenIsMarked(fold, run, w.document, document, Refreshed(fold, w.reader, w.file), stops.document,
      Refreshing(w, stops.reader));
  }

  lemma OpeningIsSound<S(!new), A(!new)>(
    fold: Fold<S, A>, run: string, w: World<S, A>, document: Option<Document<S, A>>, marker: Marker
  )
    requires LengthOf(w.file) <= U64_MAX && DocumentHolds(fold, run, w.document, marker)
    requires Written(run, w.document, document, Opened(fold, run, w.document, w.file))
    ensures Marked(fold, Opened(fold, run, w.document, w.file), Opening(fold, run, w, marker))
    ensures DocumentHolds(fold, run, document,
                          if document == w.document then marker else Opening(fold, run, w, marker))
    ensures Current(fold, Opened(fold, run, w.document, w.file), OpeningLines(fold, run, w, marker),
                    OpeningCuts(fold, run, w, marker))
  {
    OpenReads(fold, run, w, marker);
    WrittenIsMarked(fold, run, w.document, document, Opened(fold, run, w.document, w.file), marker,
      Opening(fold, run, w, marker));
  }

  lemma EndIsSound<S(!new), A(!new)>(
    fold: Fold<S, A>, run: string, w: World<S, A>, document: Option<Document<S, A>>, marker: Marker
  )
    requires LengthOf(w.file) <= U64_MAX && DocumentHolds(fold, run, w.document, marker)
    requires Written(run, w.document, document, Ended(fold, Opened(fold, run, w.document, w.file), w.file))
    ensures DocumentHolds(fold, run, document,
                          if document == w.document then marker else Ending(fold, run, w, marker))
  {
    EndReads(fold, run, w, marker);
    WrittenIsMarked(fold, run, w.document, document, Ended(fold, Opened(fold, run, w.document, w.file), w.file),
      marker, Ending(fold, run, w, marker));
  }

  /**
   Every step keeps the world sound, its stops those the step makes; and a read leaves its
   reader current with what it found.
   */
  lemma StepIsSound<S(!new), A(!new)>(
    fold: Fold<S, A>, run: string, w: World<S, A>, step: Step<S, A>, w': World<S, A>, stops: Stops
  )
    requires Sound(fold, run, w, stops) && Next(fold, run, w, step, w')
    ensures Sound(fold, run, w', StopsAfter(fold, run, w, step, w', stops))
    ensures step.Refresh? || step.Reopen? ==>
              Current(fold, w'.reader, ReadIn(fold, run, w, step, stops),
                      StopsAfter(fold, run, w, step, w', stops).reader.cuts)
  {
    match step {
      case Append(_) =>
      case Replace(_) =>
      case Damage(_) =>
      case Refresh => RefreshStep(fold, run, w, step, w', stops);
      case Reopen => ReopenStep(fold, run, w, step, w', stops);
      case Beside => BesideStep(fold, run, w, w', stops, StopsAfter(fold, run, w, step, w', stops));
      case End =>
        EndStops(fold, run, w, step, w', stops);
        if Written(run, w.document, w'.document, Opened(fold, run, w.document, w.file)) {
          BesideStep(fold, run, w, w', stops, StopsAfter(fold, run, w, step, w', stops));
        } else {
          EndStep(fold, run, w, w', stops, StopsAfter(fold, run, w, step, w', stops));
        }
    }
  }

  lemma SoundWhere<S(!new), A(!new)>(
    fold: Fold<S, A>, run: string, w: World<S, A>, stops: Stops, reader: Marker, document: Marker
  )
    requires stops == Stops(reader, document)
    requires Marked(fold, w.reader, reader) && DocumentHolds(fold, run, w.document, document)
    ensures Sound(fold, run, w, stops)
  {
  }

  lemma RefreshStep<S(!new), A(!new)>(
    fold: Fold<S, A>, run: string, w: World<S, A>, step: Step<S, A>, w': World<S, A>, stops: Stops
  )
    requires LengthOf(w.file) <= U64_MAX && Sound(fold, run, w, stops) && step.Refresh?
    requires w'.reader == Refreshed(fold, w.reader, w.file)
    requires Written(run, w.document, w'.document, Refreshed(fold, w.reader, w.file))
    ensures Sound(fold, run, w', StopsAfter(fold, run, w, step, w', stops))
    ensures Current(fold, w'.reader, ReadIn(fold, run, w, step, stops),
                    StopsAfter(fold, run, w, step, w', stops).reader.cuts)
  {
    RefreshIsSound(fold, run, w, w'.document, stops);
    var marker := Refreshing(w, stops.reader);
    SoundWhere(fold, run, w', StopsAfter(fold, run, w, step, w', stops), marker,
      if w'.document == w.document then stops.document else marker);
  }

  lemma ReopenStep<S(!new), A(!new)>(
    fold: Fold<S, A>, run: string, w: World<S, A>, step: Step<S, A>, w': World<S, A>, stops: Stops
  )
    requires LengthOf(w.file) <= U64_MAX && Sound(fold, run, w, stops) && step.Reopen?
    requires w'.reader == Opened(fold, run, w.document, w.file)
    requires Written(run, w.document, w'.document, Opened(fold, run, w.document, w.file))
    ensures Sound(fold, run, w', StopsAfter(fold, run, w, step, w', stops))
    ensures Current(fold, w'.reader, ReadIn(fold, run, w, step, stops),
                    StopsAfter(fold, run, w, step, w', stops).reader.cuts)
  {
    OpeningIsSound(fold, run, w, w'.document, stops.document);
    var marker := Opening(fold, run, w, stops.document);
    SoundWhere(fold, run, w', StopsAfter(fold, run, w, step, w', stops), marker,
      if w'.document == w.document then stops.document else marker);
  }

  lemma BesideStep<S(!new), A(!new)>(
    fold: Fold<S, A>, run: string, w: World<S, A>, w': World<S, A>, stops: Stops, after: Stops
  )
    requires LengthOf(w.file) <= U64_MAX && Sound(fold, run, w, stops)
    requires w'.reader == w.reader && after.reader == stops.reader
    requires Written(run, w.document, w'.document, Opened(fold, run, w.document, w.file))
    requires after.document ==
      if w'.document == w.document then stops.document else Opening(fold, run, w, stops.document)
    ensures Sound(fold, run, w', after)
  {
    OpeningIsSound(fold, run, w, w'.document, stops.document);
  }

  lemma EndStep<S(!new), A(!new)>(
    fold: Fold<S, A>, run: string, w: World<S, A>, w': World<S, A>, stops: Stops, after: Stops
  )
    requires LengthOf(w.file) <= U64_MAX && Sound(fold, run, w, stops)
    requires w'.reader == w.reader && after.reader == stops.reader
    requires Written(run, w.document, w'.document, Ended(fold, Opened(fold, run, w.document, w.file), w.file))
    requires after.document ==
      if w'.document == w.document then stops.document else Ending(fold, run, w, stops.document)
    ensures Sound(fold, run, w', after)
  {
    EndIsSound(fold, run, w, w'.document, stops.document);
  }

  /** Whose document an ended fold leaves: the opening's, or its own. */
  lemma EndStops<S(!new), A(!new)>(
    fold: Fold<S, A>, run: string, w: World<S, A>, step: Step<S, A>, w': World<S, A>, stops: Stops
  )
    requires LengthOf(w.file) <= U64_MAX && step.End?
    ensures StopsAfter(fold, run, w, step, w', stops).reader == stops.reader
    ensures Written(run, w.document, w'.document, Opened(fold, run, w.document, w.file)) ==>
              StopsAfter(fold, run, w, step, w', stops).document ==
              if w'.document == w.document then stops.document else Opening(fold, run, w, stops.document)
    ensures !Written(run, w.document, w'.document, Opened(fold, run, w.document, w.file)) ==>
              StopsAfter(fold, run, w, step, w', stops).document == Ending(fold, run, w, stops.document)
  {
  }

  lemma StopsGoOn<S(!new), A(!new)>(
    fold: Fold<S, A>, run: string, worlds: seq<World<S, A>>, steps: seq<Step<S, A>>, n: nat
  )
    requires IsRun(fold, run, worlds, steps) && n < |steps|
    ensures Next(fold, run, worlds[n], steps[n], worlds[n + 1])
    ensures StopsOf(fold, run, worlds, steps, n + 1)
         == StopsAfter(fold, run, worlds[n], steps[n], worlds[n + 1], StopsOf(fold, run, worlds, steps, n))
  {
  }

  lemma StartIsSound<S(!new), A(!new)>(fold: Fold<S, A>, run: string, w: World<S, A>)
    requires w.document == None && w.reader == Empty(fold)
    ensures Sound(fold, run, w, Stops(NO_MARKER, NO_MARKER))
  {
    EmptyHolds(fold, []);
  }

  lemma StepKeepsSound<S(!new), A(!new)>(
    fold: Fold<S, A>, run: string, w: World<S, A>, step: Step<S, A>, w': World<S, A>, stops: Stops, after: Stops
  )
    requires Sound(fold, run, w, stops) && Next(fold, run, w, step, w')
    requires after == StopsAfter(fold, run, w, step, w', stops)
    ensures Sound(fold, run, w', after)
  {
    StepIsSound(fold, run, w, step, w', stops);
  }

  lemma {:induction false} RunIsSound<S(!new), A(!new)>(
    fold: Fold<S, A>, run: string, worlds: seq<World<S, A>>, steps: seq<Step<S, A>>, n: nat
  )
    requires IsRun(fold, run, worlds, steps) && n <= |steps|
    ensures Sound(fold, run, worlds[n], StopsOf(fold, run, worlds, steps, n))
  {
    if n == 0 {
      StartIsSound(fold, run, worlds[0]);
    } else {
      var last := n - 1;
      RunIsSound(fold, run, worlds, steps, last);
      StopsGoOn(fold, run, worlds, steps, last);
      StepKeepsSound(fold, run, worlds[last], steps[last], worlds[n], StopsOf(fold, run, worlds, steps, last),
        StopsOf(fold, run, worlds, steps, n));
    }
  }

  /** The lines the reader has taken, at the read a run makes after its first `n` steps. */
  ghost function ReadAt<S(!new), A(!new)>(
    fold: Fold<S, A>, run: string, worlds: seq<World<S, A>>, steps: seq<Step<S, A>>, n: nat
  ): seq<FinishedLine>
    requires IsRun(fold, run, worlds, steps) && n < |steps|
  {
    ReadIn(fold, run, worlds[n], steps[n], StopsOf(fold, run, worlds, steps, n))
  }

  ghost predicate StandsAt<S(!new), A(!new)>(
    fold: Fold<S, A>, run: string, worlds: seq<World<S, A>>, steps: seq<Step<S, A>>, n: nat
  )
    requires IsRun(fold, run, worlds, steps) && n < |steps|
  {
    Stands(fold, run, worlds[n], steps[n], StopsOf(fold, run, worlds, steps, n))
  }

  lemma StandsExactly<S(!new), A(!new)>(
    fold: Fold<S, A>, run: string, w: World<S, A>, step: Step<S, A>, stops: Stops
  )
    requires Sound(fold, run, w, stops)
    ensures ReadIn(fold, run, w, step, stops) == AllLines(w.file) <==> Stands(fold, run, w, step, stops)
  {
    if step.Refresh? {
      FindsTheFileExactly(fold, w.reader, stops.reader, w.file);
    } else if Usable(fold, run, w.document, w.file) && w.document.value.coverage.bytes > 0 {
      FindsTheFileExactly(fold, Resumed(w.document.value), stops.document, w.file);
    }
  }

  /**
   Whatever becomes of the journal, and however a run's readers come and go: after a read, what
   is held is exactly the fold, the tally, the marker and the claims of the lines the reader
   took, each piece between the stops the marker made in its own merge order; and those lines
   are the journal's exactly where it still holds what was covered, or is shorter than it.
   */
  lemma EveryReadIsExact<S(!new), A(!new)>(
    fold: Fold<S, A>, run: string, worlds: seq<World<S, A>>, steps: seq<Step<S, A>>, n: nat, w: World<S, A>
  )
    requires IsRun(fold, run, worlds, steps) && n < |steps| && (steps[n].Refresh? || steps[n].Reopen?)
    requires w == worlds[n + 1]
    ensures Current(fold, w.reader, ReadAt(fold, run, worlds, steps, n),
                    StopsOf(fold, run, worlds, steps, n + 1).reader.cuts)
    ensures w.reader.coverage.records == LastCut(StopsOf(fold, run, worlds, steps, n + 1).reader.cuts)
    ensures ReadAt(fold, run, worlds, steps, n) == AllLines(w.file) <==> StandsAt(fold, run, worlds, steps, n)
  {
    var stops := StopsOf(fold, run, worlds, steps, n);
    RunIsSound(fold, run, worlds, steps, n);
    StopsGoOn(fold, run, worlds, steps, n);
    StepIsSound(fold, run, worlds[n], steps[n], w, stops);
    StandsExactly(fold, run, worlds[n], steps[n], stops);
    var lines, cuts := ReadAt(fold, run, worlds, steps, n), StopsOf(fold, run, worlds, steps, n + 1).reader.cuts;
    CoveringIsExact(lines[..LastCut(cuts)], w.reader.coverage.digest);
  }

  // ---- a journal that only grows -----------------------------------------

  /** Whether nothing but appending happened to the journal in the first `n` steps. */
  ghost predicate OnlyGrows<S, A>(steps: seq<Step<S, A>>, n: nat) {
    forall i :: 0 <= i < n && i < |steps| ==> !steps[i].Replace?
  }

  ghost predicate Prefixes(lines: seq<FinishedLine>, stops: Stops) {
    stops.reader.covered <= lines && stops.document.covered <= lines
  }

  /** Where what is covered is a prefix of the journal, whatever reads it finds the journal. */
  lemma PrefixesFind<S(!new), A(!new)>(fold: Fold<S, A>, run: string, w: World<S, A>, stops: Stops)
    requires LengthOf(w.file) <= U64_MAX && Sound(fold, run, w, stops) && Prefixes(AllLines(w.file), stops)
    ensures Found(w.reader, stops.reader, w.file) == AllLines(w.file)
    ensures w.reader.coverage.bytes <= LengthOf(w.file)
    ensures OpeningLines(fold, run, w, stops.document) == AllLines(w.file)
  {
    FindsTheFileExactly(fold, w.reader, stops.reader, w.file);
    StandsExactly(fold, run, w, Reopen, stops);
  }

  lemma PrefixesEnd<S(!new), A(!new)>(fold: Fold<S, A>, run: string, w: World<S, A>, stops: Stops)
    requires LengthOf(w.file) <= U64_MAX && Sound(fold, run, w, stops) && Prefixes(AllLines(w.file), stops)
    ensures Ending(fold, run, w, stops.document).covered == AllLines(w.file)
    ensures Ending(fold, run, w, stops.document).cuts
         == EndedCuts(AllLines(w.file), OpeningCuts(fold, run, w, stops.document))
  {
    PrefixesFind(fold, run, w, stops);
    OpenReads(fold, run, w, stops.document);
    ThroughIsPrefix(AllLines(w.file), OpeningCuts(fold, run, w, stops.document));
    FindsTheFileExactly(fold, Opened(fold, run, w.document, w.file), Opening(fold, run, w, stops.document), w.file);
  }

  lemma ThroughIsPrefix(lines: seq<FinishedLine>, cuts: seq<nat>)
    ensures Through(lines, cuts).covered <= lines
  {
  }

  lemma StepKeepsPrefixes<S(!new), A(!new)>(
    fold: Fold<S, A>, run: string, w: World<S, A>, step: Step<S, A>, w': World<S, A>, stops: Stops, after: Stops
  )
    requires Sound(fold, run, w, stops) && Next(fold, run, w, step, w')
    requires Prefixes(AllLines(w.file), stops) && !step.Replace?
    requires after == StopsAfter(fold, run, w, step, w', stops)
    ensures Prefixes(AllLines(w'.file), after)
  {
    if step.Append? {
      GrownIsLonger(w.file, w'.file);
    } else if !step.Damage? {
      MarkersArePrefixes(fold, run, w, step, stops);
      MarkersAre(fold, run, w, step, w', stops, after);
    }
  }

  /** Whatever a step does to a marker, it is left, or is what the step's reader or its ended fold covers. */
  lemma MarkersAre<S(!new), A(!new)>(
    fold: Fold<S, A>, run: string, w: World<S, A>, step: Step<S, A>, w': World<S, A>, stops: Stops, after: Stops
  )
    requires LengthOf(w.file) <= U64_MAX && after == StopsAfter(fold, run, w, step, w', stops)
    requires !step.Append? && !step.Replace? && !step.Damage?
    ensures after.reader in {stops.reader, ReadMarker(fold, run, w, step, stops)}
    ensures after.document in {stops.document, ReadMarker(fold, run, w, step, stops),
      Ending(fold, run, w, stops.document)}
  {
  }

  lemma MarkersArePrefixes<S(!new), A(!new)>(
    fold: Fold<S, A>, run: string, w: World<S, A>, step: Step<S, A>, stops: Stops
  )
    requires LengthOf(w.file) <= U64_MAX && Sound(fold, run, w, stops) && Prefixes(AllLines(w.file), stops)
    ensures ReadMarker(fold, run, w, step, stops).covered <= AllLines(w.file)
    ensures Ending(fold, run, w, stops.document).covered <= AllLines(w.file)
  {
    PrefixesFind(fold, run, w, stops);
    ThroughIsPrefix(AllLines(w.file), NextCuts(w.reader, stops.reader, w.file));
    ThroughIsPrefix(AllLines(w.file), OpeningCuts(fold, run, w, stops.document));
    PrefixesEnd(fold, run, w, stops);
  }

  lemma {:induction false} GrowingKeepsPrefixes<S(!new), A(!new)>(
    fold: Fold<S, A>, run: string, worlds: seq<World<S, A>>, steps: seq<Step<S, A>>, n: nat
  )
    requires IsRun(fold, run, worlds, steps) && n <= |steps| && OnlyGrows(steps, n)
    ensures Prefixes(AllLines(worlds[n].file), StopsOf(fold, run, worlds, steps, n))
  {
    if n > 0 {
      var last := n - 1;
      GrowingKeepsPrefixes(fold, run, worlds, steps, last);
      RunIsSound(fold, run, worlds, steps, last);
      StopsGoOn(fold, run, worlds, steps, last);
      StepKeepsPrefixes(fold, run, worlds[last], steps[last], worlds[n], StopsOf(fold, run, worlds, steps, last),
        StopsOf(fold, run, worlds, steps, n));
    }
  }

  /** So of a journal that only grows every read takes just its lines. */
  lemma GrowingReadsStand<S(!new), A(!new)>(
    fold: Fold<S, A>, run: string, worlds: seq<World<S, A>>, steps: seq<Step<S, A>>, n: nat
  )
    requires IsRun(fold, run, worlds, steps) && n < |steps| && OnlyGrows(steps, n)
    ensures StandsAt(fold, run, worlds, steps, n) && ReadAt(fold, run, worlds, steps, n) == AllLines(worlds[n].file)
  {
    RunIsSound(fold, run, worlds, steps, n);
    GrowingKeepsPrefixes(fold, run, worlds, steps, n);
    StopsGoOn(fold, run, worlds, steps, n);
    PrefixesFind(fold, run, worlds[n], StopsOf(fold, run, worlds, steps, n));
    StandsExactly(fold, run, worlds[n], steps[n], StopsOf(fold, run, worlds, steps, n));
  }

  /** And each refresh adds the one stop it then makes in it. */
  lemma GrowingRefreshStops<S(!new), A(!new)>(
    fold: Fold<S, A>, run: string, worlds: seq<World<S, A>>, steps: seq<Step<S, A>>, n: nat, cuts: seq<nat>
  )
    requires IsRun(fold, run, worlds, steps) && n < |steps| && OnlyGrows(steps, n) && steps[n].Refresh?
    requires cuts == StopsOf(fold, run, worlds, steps, n).reader.cuts
    ensures StopsOf(fold, run, worlds, steps, n + 1).reader
         == Through(AllLines(worlds[n].file), cuts + [NextCut(AllLines(worlds[n].file), cuts)])
  {
    RunIsSound(fold, run, worlds, steps, n);
    GrowingKeepsPrefixes(fold, run, worlds, steps, n);
    StopsGoOn(fold, run, worlds, steps, n);
    PrefixesFind(fold, run, worlds[n], StopsOf(fold, run, worlds, steps, n));
  }

  // ---- when that is the whole-store fold ---------------------------------

  /**
   Where records arrive in merge order, every read of any run, rebuilt in however many windows, is
   the whole-store fold.
   */
  lemma AnyRebuildIsTheWholeStoreFold<S(!new), A(!new)>(
    fold: Fold<S, A>, run: string, worlds: seq<World<S, A>>, steps: seq<Step<S, A>>, n: nat
  )
    requires IsRun(fold, run, worlds, steps) && n < |steps| && (steps[n].Refresh? || steps[n].Reopen?)
    requires StandsAt(fold, run, worlds, steps, n) && Ordered(Records(AllLines(worlds[n + 1].file)))
    ensures IsWholeStoreFold(fold, worlds[n + 1])
  {
    EveryReadIsExact(fold, run, worlds, steps, n, worlds[n + 1]);
    var lines, cuts := AllLines(worlds[n + 1].file), StopsOf(fold, run, worlds, steps, n + 1).reader.cuts;
    forall i | 0 <= i < |cuts| ensures InFrontAt(lines, cuts[i]) {
      SplitRecords(lines, cuts[i]);
      FileOrderIsInFront(Records(lines[..cuts[i]]), Records(lines[cuts[i]..]), Records(lines));
    }
    CutsLeaveNoTrace(lines, cuts);
  }

  lemma FileOrderIsInFront(front: seq<Envelope>, later: seq<Envelope>, all: seq<Envelope>)
    requires all == front + later && Ordered(all)
    ensures AllInFront(front, later)
  {
    forall i, j | 0 <= i < |front| && 0 <= j < |later| ensures InFront(front[i], later[j]) {
      assert all[i] == front[i] && all[|front| + j] == later[j];
    }
  }

  /** Whether a reader holds the state and the tally of the whole store's fold in merge order. */
  ghost predicate IsWholeStoreFold<S(!new), A(!new)>(fold: Fold<S, A>, w: World<S, A>) {
    var lines := AllLines(w.file);
    && w.reader.state == StateOver(fold, fold.empty, Merged(Records(lines)))
    && w.reader.tally == Counted(fold, lines, Merged(Records(lines)))
  }

  /** Whether a step rebuilds no more than one window: a journal that fits one, or a document resumed from. */
  ghost predicate OneWindow<S(!new), A(!new)>(fold: Fold<S, A>, run: string, w: World<S, A>, step: Step<S, A>) {
    step.Reopen? || step.Beside? || step.End? ==>
      REBUILD_WINDOW >= LengthOf(w.file) ||
        (Usable(fold, run, w.document, w.file) && w.document.value.coverage.bytes > 0)
  }

  /** Where the store stood each time it was folded as ended. */
  function EndsOf<S, A>(worlds: seq<World<S, A>>, steps: seq<Step<S, A>>, n: nat): set<nat>
    requires |worlds| == |steps| + 1 && n <= |steps|
  {
    if n == 0 then {}
    else EndsOf(worlds, steps, n - 1) + if steps[n - 1].End? then {|AllLines(worlds[n - 1].file)|} else {}
  }

  ghost predicate StopsAreClosed(lines: seq<FinishedLine>, stops: Stops, ends: set<nat>) {
    && ValidCuts(stops.reader.cuts, |lines|) && AllClosed(lines, stops.reader.cuts, ends)
    && ValidCuts(stops.document.cuts, |lines|) && AllClosed(lines, stops.document.cuts, ends)
  }

  lemma OpeningIsClosed<S(!new), A(!new)>(
    fold: Fold<S, A>, run: string, w: World<S, A>, step: Step<S, A>, stops: Stops, ends: set<nat>
  )
      returns (opening: seq<nat>)
    requires LengthOf(w.file) <= U64_MAX && OneWindow(fold, run, w, step) && (step.Reopen? || step.Beside? || step.End?)
    requires Orderly(Records(AllLines(w.file))) && AllSettled(AllLines(w.file), ends)
    requires StopsAreClosed(AllLines(w.file), stops, ends)
    requires OpeningLines(fold, run, w, stops.document) == AllLines(w.file)
    ensures opening == OpeningCuts(fold, run, w, stops.document)
    ensures ValidCuts(opening, |AllLines(w.file)|) && AllClosed(AllLines(w.file), opening, ends)
  {
    var before := StartingCuts(fold, run, w.document, w.file, stops.document.cuts);
    assert before == stops.document.cuts || before == [] by {
      OneWindowAddsNone(fold, run, w, step, stops.document.cuts);
    }
    opening := before + [NextCut(AllLines(w.file), before)];
    NextCutsAreClosed(AllLines(w.file), before, ends, opening);
  }

  lemma OneWindowAddsNone<S(!new), A(!new)>(
    fold: Fold<S, A>, run: string, w: World<S, A>, step: Step<S, A>, cuts: seq<nat>
  )
    requires LengthOf(w.file) <= U64_MAX && OneWindow(fold, run, w, step) && (step.Reopen? || step.Beside? || step.End?)
    ensures StartingCuts(fold, run, w.document, w.file, cuts) == cuts ||
      StartingCuts(fold, run, w.document, w.file, cuts) == []
  {
    var before := if Usable(fold, run, w.document, w.file) then cuts else [];
    if REBUILD_WINDOW >= LengthOf(w.file) {
      assert WindowCuts(w.file, LastCut(before), REBUILD_WINDOW) == [];
      assert before + [] == before;
    }
  }

  /** Every step of an orderly store that rebuilds no more than a window leaves each stop closed. */
  lemma StepStaysClosed<S(!new), A(!new)>(
    fold: Fold<S, A>, run: string, w: World<S, A>, step: Step<S, A>, w': World<S, A>, stops: Stops, ends: set<nat>,
    more: set<nat>
  )
    requires Sound(fold, run, w, stops) && Prefixes(AllLines(w.file), stops) && !step.Replace?
    requires Next(fold, run, w, step, w') && OneWindow(fold, run, w, step)
    requires Orderly(Records(AllLines(w'.file))) && Orderly(Records(AllLines(w.file))) &&
      AllSettled(AllLines(w.file), ends)
    requires StopsAreClosed(AllLines(w.file), stops, ends)
    requires more == ends + if step.End? then {|AllLines(w.file)|} else {}
    ensures StopsAreClosed(AllLines(w'.file), StopsAfter(fold, run, w, step, w', stops), more)
  {
    match step {
      case Append(file) =>
        AppendStaysClosed(w.file, file, stops, ends);
      case Refresh =>
        PrefixesFind(fold, run, w, stops);
        RefreshStaysClosed(fold, run, w, step, w', stops, ends);
      case Reopen =>
        PrefixesFind(fold, run, w, stops);
        OpenStaysClosed(fold, run, w, step, w', stops, ends);
      case Beside =>
        PrefixesFind(fold, run, w, stops);
        OpenStaysClosed(fold, run, w, step, w', stops, ends);
      case End =>
        PrefixesFind(fold, run, w, stops);
        PrefixesEnd(fold, run, w, stops);
        EndStaysClosed(fold, run, w, step, w', stops, ends, more);
      case Damage(_) =>
    }
  }

  lemma AppendStaysClosed(file: File, grown: File, stops: Stops, ends: set<nat>)
    requires file.lines <= grown.lines && Orderly(Records(AllLines(grown))) &&
      StopsAreClosed(AllLines(file), stops, ends)
    ensures StopsAreClosed(AllLines(grown), stops, ends)
  {
    GrownIsLonger(file, grown);
    CutsStayClosed(AllLines(file), AllLines(grown), stops.reader.cuts, ends, ends);
    CutsStayClosed(AllLines(file), AllLines(grown), stops.document.cuts, ends, ends);
  }

  lemma RefreshStaysClosed<S(!new), A(!new)>(
    fold: Fold<S, A>, run: string, w: World<S, A>, step: Step<S, A>, w': World<S, A>, stops: Stops, ends: set<nat>
  )
    requires step.Refresh? && Next(fold, run, w, step, w')
    requires Found(w.reader, stops.reader, w.file) == AllLines(w.file)
    requires w.reader.coverage.bytes <= LengthOf(w.file)
    requires Orderly(Records(AllLines(w.file))) && AllSettled(AllLines(w.file), ends)
    requires StopsAreClosed(AllLines(w.file), stops, ends)
    ensures StopsAreClosed(AllLines(w'.file), StopsAfter(fold, run, w, step, w', stops), ends)
  {
    NextCutsAreClosed(AllLines(w.file), stops.reader.cuts, ends,
      stops.reader.cuts + [NextCut(AllLines(w.file), stops.reader.cuts)]);
  }

  lemma OpenStaysClosed<S(!new), A(!new)>(
    fold: Fold<S, A>, run: string, w: World<S, A>, step: Step<S, A>, w': World<S, A>, stops: Stops, ends: set<nat>
  )
    requires (step.Reopen? || step.Beside?) && Next(fold, run, w, step, w') && OneWindow(fold, run, w, step)
    requires OpeningLines(fold, run, w, stops.document) == AllLines(w.file)
    requires Orderly(Records(AllLines(w.file))) && AllSettled(AllLines(w.file), ends)
    requires StopsAreClosed(AllLines(w.file), stops, ends)
    ensures StopsAreClosed(AllLines(w'.file), StopsAfter(fold, run, w, step, w', stops), ends)
  {
    var opening := OpeningIsClosed(fold, run, w, step, stops, ends);
  }

  lemma EndStaysClosed<S(!new), A(!new)>(
    fold: Fold<S, A>, run: string, w: World<S, A>, step: Step<S, A>, w': World<S, A>, stops: Stops, ends: set<nat>,
    more: set<nat>
  )
    requires step.End? && Next(fold, run, w, step, w') && OneWindow(fold, run, w, step)
    requires OpeningLines(fold, run, w, stops.document) == AllLines(w.file)
    requires Ending(fold, run, w, stops.document).cuts
          == EndedCuts(AllLines(w.file), OpeningCuts(fold, run, w, stops.document))
    requires Orderly(Records(AllLines(w.file))) && AllSettled(AllLines(w.file), ends)
    requires StopsAreClosed(AllLines(w.file), stops, ends) && more == ends + {|AllLines(w.file)|}
    ensures StopsAreClosed(AllLines(w'.file), StopsAfter(fold, run, w, step, w', stops), more)
  {
    var lines := AllLines(w.file);
    var opening := OpeningIsClosed(fold, run, w, step, stops, ends);
    EndingIsClosed(lines, opening, ends, more);
    CutsStayClosed(lines, lines, stops.reader.cuts, ends, more);
    CutsStayClosed(lines, lines, stops.document.cuts, ends, more);
    CutsStayClosed(lines, lines, opening, ends, more);
  }

  lemma EndingIsClosed(lines: seq<FinishedLine>, cuts: seq<nat>, ends: set<nat>, more: set<nat>)
    requires ValidCuts(cuts, |lines|) && AllClosed(lines, cuts, ends) && Orderly(Records(lines))
    requires more == ends + {|lines|}
    ensures ValidCuts(EndedCuts(lines, cuts), |lines|) && AllClosed(lines, EndedCuts(lines, cuts), more)
  {
    CutsStayClosed(lines, lines, cuts, ends, more);
    if LastCut(cuts) != |lines| {
      assert lines[|lines|..|lines|] == [];
      assert EndedAt(lines, |lines|, |lines|);
      OneMoreClosed(lines, cuts, |lines|, more, cuts + [|lines|]);
    }
  }

  lemma {:induction false} FilesGrow<S(!new), A(!new)>(
    fold: Fold<S, A>, run: string, worlds: seq<World<S, A>>, steps: seq<Step<S, A>>, m: nat, n: nat
  )
    requires IsRun(fold, run, worlds, steps) && m <= n <= |steps| && OnlyGrows(steps, n)
    ensures AllLines(worlds[m].file) <= AllLines(worlds[n].file)
  {
    if m < n {
      var last := n - 1;
      FilesGrow(fold, run, worlds, steps, m, last);
      assert Next(fold, run, worlds[last], steps[last], worlds[last + 1]);
      if steps[last].Append? {
        GrownIsLonger(worlds[last].file, worlds[n].file);
      }
    }
  }

  lemma {:induction false} EndsGrow<S(!new), A(!new)>(worlds: seq<World<S, A>>, steps: seq<Step<S, A>>, m: nat, n: nat)
    requires |worlds| == |steps| + 1 && m <= n <= |steps|
    ensures EndsOf(worlds, steps, m) <= EndsOf(worlds, steps, n)
  {
    if m < n {
      EndsGrow(worlds, steps, m, n - 1);
    }
  }

  ghost predicate AllWithin(ends: set<nat>, size: nat) {
    forall end :: end in ends ==> end <= size
  }

  lemma WithinGrows(ends: set<nat>, size: nat, more: set<nat>, grown: nat)
    requires AllWithin(ends, size) && size <= grown && more <= ends + {size}
    ensures AllWithin(more, grown)
  {
  }

  lemma EndsGoOn<S(!new), A(!new)>(worlds: seq<World<S, A>>, steps: seq<Step<S, A>>, n: nat)
    requires |worlds| == |steps| + 1 && n < |steps|
    ensures EndsOf(worlds, steps, n + 1) <= EndsOf(worlds, steps, n) + {|AllLines(worlds[n].file)|}
  {
  }

  lemma {:induction false} EndsAreWithin<S(!new), A(!new)>(
    fold: Fold<S, A>, run: string, worlds: seq<World<S, A>>, steps: seq<Step<S, A>>, n: nat
  )
    requires IsRun(fold, run, worlds, steps) && n <= |steps| && OnlyGrows(steps, n)
    ensures AllWithin(EndsOf(worlds, steps, n), |AllLines(worlds[n].file)|)
  {
    if n > 0 {
      var last := n - 1;
      EndsAreWithin(fold, run, worlds, steps, last);
      FilesGrow(fold, run, worlds, steps, last, n);
      var size := |AllLines(worlds[last].file)|;
      EndsGoOn(worlds, steps, last);
      WithinGrows(EndsOf(worlds, steps, last), size, EndsOf(worlds, steps, n), |AllLines(worlds[n].file)|);
    }
  }

  /** Whether a run is orderly up to `n`, and whatever arrived after it was folded as ended is stamped later. */
  ghost predicate OrderlyRun<S(!new), A(!new)>(worlds: seq<World<S, A>>, steps: seq<Step<S, A>>, n: nat)
    requires |worlds| == |steps| + 1 && n <= |steps|
  {
    Orderly(Records(AllLines(worlds[n].file))) && AllSettled(AllLines(worlds[n].file), EndsOf(worlds, steps, n))
  }

  lemma OrderlyEarlier<S(!new), A(!new)>(
    fold: Fold<S, A>, run: string, worlds: seq<World<S, A>>, steps: seq<Step<S, A>>, m: nat, n: nat
  )
    requires IsRun(fold, run, worlds, steps) && m <= n <= |steps| && OnlyGrows(steps, n)
    requires OrderlyRun(worlds, steps, n)
    ensures OrderlyRun(worlds, steps, m)
  {
    var lines, longer := AllLines(worlds[m].file), AllLines(worlds[n].file);
    FilesGrow(fold, run, worlds, steps, m, n);
    EndsGrow(worlds, steps, m, n);
    EndsAreWithin(fold, run, worlds, steps, m);
    OrderlyBefore(lines, longer);
    forall end | end in EndsOf(worlds, steps, m) ensures end <= |lines| && Settled(lines, end) {
      SettledBefore(lines, longer, end);
    }
  }

  lemma {:induction false} RunStaysClosed<S(!new), A(!new)>(
    fold: Fold<S, A>, run: string, worlds: seq<World<S, A>>, steps: seq<Step<S, A>>, n: nat
  )
    requires IsRun(fold, run, worlds, steps) && n <= |steps| && OnlyGrows(steps, n) && OrderlyRun(worlds, steps, n)
    requires forall i :: 0 <= i < n ==> OneWindow(fold, run, worlds[i], steps[i])
    ensures StopsAreClosed(AllLines(worlds[n].file), StopsOf(fold, run, worlds, steps, n), EndsOf(worlds, steps, n))
  {
    if n > 0 {
      var last := n - 1;
      OrderlyEarlier(fold, run, worlds, steps, last, n);
      RunStaysClosed(fold, run, worlds, steps, last);
      RunIsSound(fold, run, worlds, steps, last);
      GrowingKeepsPrefixes(fold, run, worlds, steps, last);
      assert Next(fold, run, worlds[last], steps[last], worlds[last + 1]);
      StepStaysClosed(fold, run, worlds[last], steps[last], worlds[n], StopsOf(fold, run, worlds, steps, last),
                      EndsOf(worlds, steps, last), EndsOf(worlds, steps, n));
    }
  }

  /**
   Where records arrive in order, what arrives past an ended fold is stamped later, and no
   rebuild takes more than a window, every read leaves the state and the tally of the
   whole-store fold in merge order.
   */
  lemma CachedFoldIsWholeStoreFold<S(!new), A(!new)>(
    fold: Fold<S, A>, run: string, worlds: seq<World<S, A>>, steps: seq<Step<S, A>>, n: nat
  )
    requires IsRun(fold, run, worlds, steps) && n < |steps| && (steps[n].Refresh? || steps[n].Reopen?)
    requires forall i :: 0 <= i <= n ==> OneWindow(fold, run, worlds[i], steps[i])
    requires OnlyGrows(steps, n + 1) && OrderlyRun(worlds, steps, n + 1)
    ensures IsWholeStoreFold(fold, worlds[n + 1])
  {
    GrowingReadsStand(fold, run, worlds, steps, n);
    EveryReadIsExact(fold, run, worlds, steps, n, worlds[n + 1]);
    RunStaysClosed(fold, run, worlds, steps, n + 1);
    ClosedCutsLeaveNoTrace(AllLines(worlds[n + 1].file), StopsOf(fold, run, worlds, steps, n + 1).reader.cuts,
      EndsOf(worlds, steps, n + 1));
  }
}
