/**
 What a resumed fold is, over every run of appends, refreshes and reopenings
 (src/checkpoint.rs).

 A marker's successive stops are its cuts. Whatever arrives in whatever order, what
 a reader holds is the fold of each piece between cuts in its own merge order;
 where no later record sorts ahead of a cut, the cuts leave no trace and it is the
 fold of the whole store.
 */
module CheckpointRuns {
  import opened Checkpoint
  import opened Coverage
  import opened Folding
  import opened Journal
  import opened Merging
  import opened Wrappers

  function LastCut(cuts: seq<nat>): nat {
    if cuts == [] then 0 else cuts[|cuts| - 1]
  }

  predicate ValidCuts(cuts: seq<nat>, n: nat) {
    && (forall i, j :: 0 <= i < j < |cuts| ==> cuts[i] <= cuts[j])
    && (forall i :: 0 <= i < |cuts| ==> cuts[i] <= n)
  }

  /** Each piece between two cuts in its own merge order, one after the other. */
  ghost function Barriered(lines: seq<FinishedLine>, cuts: seq<nat>): seq<Envelope>
    requires ValidCuts(cuts, |lines|)
  {
    if cuts == [] then []
    else
      var before := cuts[..|cuts| - 1];
      Barriered(lines, before) + Merged(Records(lines[LastCut(before)..LastCut(cuts)]))
  }

  /** The order a reader folded `lines` in: the covered pieces, then what lies past the last cut. */
  ghost function OrderOver(lines: seq<FinishedLine>, cuts: seq<nat>): seq<Envelope>
    requires ValidCuts(cuts, |lines|)
  {
    Barriered(lines, cuts) + Merged(Records(lines[LastCut(cuts)..]))
  }

  /** What the covered half always is: the exact marker of a prefix, and the fold and tally of it. */
  ghost predicate Holds<S(!new), A(!new)>(
    fold: Fold<S, A>, cached: Cached<S, A>, lines: seq<FinishedLine>, cuts: seq<nat>
  ) {
    && ValidCuts(cuts, |lines|)
    && cached.coverage == Covering(lines[..LastCut(cuts)], cached.coverage.digest)
    && cached.covered == StateOver(fold, fold.empty, Barriered(lines, cuts))
    && cached.coveredTally == Counted(fold, lines[..LastCut(cuts)], Barriered(lines, cuts))
    && (LastCut(cuts) > 0 ==>
          cached.coverage.digest == SealedWith(fold, cached.coverage, cached.covered, cached.coveredTally))
  }

  /** What a reader that has just read `lines` holds. */
  ghost predicate Current<S(!new), A(!new)>(
    fold: Fold<S, A>, cached: Cached<S, A>, lines: seq<FinishedLine>, cuts: seq<nat>
  ) {
    && Holds(fold, cached, lines, cuts)
    && cached.state == StateOver(fold, fold.empty, OrderOver(lines, cuts))
    && cached.tally == Counted(fold, lines, OrderOver(lines, cuts))
    && cached.readThrough == SizeOf(lines)
    && cached.linesThrough == |lines|
    && Reaches(cached.claimedPast, Records(lines[LastCut(cuts)..]))
  }

  // ---- one read ----------------------------------------------------------

  lemma {:induction false} AbsorbingCovers(lines: seq<FinishedLine>, more: seq<FinishedLine>, digest: nat)
    ensures Absorbing(Covering(lines, digest), more) == Covering(lines + more, digest)
    decreases |more|
  {
    if more == [] {
      assert lines + more == lines;
    } else {
      var last := |more| - 1;
      AbsorbingCovers(lines, more[..last], digest);
      CoversOneMore(lines + more[..last], more[last], digest);
      assert lines + more == lines + more[..last] + [more[last]];
    }
  }

  lemma {:induction false} ClaimedReaches(events: seq<Envelope>)
    ensures Reaches(Claimed(events), events)
    decreases |events|
  {
    if events != [] {
      var front, last := events[..|events| - 1], events[|events| - 1];
      ClaimedReaches(front);
      RaisedReaches(Claimed(front), front, last);
      assert front + [last] == events;
    }
  }

  lemma CutOnce(lines: seq<FinishedLine>, cuts: seq<nat>, cut: nat)
    requires ValidCuts(cuts, |lines|) && LastCut(cuts) <= cut <= |lines|
    ensures ValidCuts(cuts + [cut], |lines|)
    ensures Barriered(lines, cuts + [cut]) == Barriered(lines, cuts) + Merged(Records(lines[LastCut(cuts)..cut]))
  {
    var more := cuts + [cut];
    assert more[..|cuts|] == cuts && more[|cuts|] == cut;
  }

  lemma {:induction false} DigestUnread(lines: seq<FinishedLine>, a: nat, b: nat)
    ensures Covering(lines, a).(digest := b) == Covering(lines, b)
    decreases |lines|
  {
    if lines != [] {
      DigestUnread(lines[..|lines| - 1], a, b);
    }
  }

  lemma SealIgnoresItself<S, A>(fold: Fold<S, A>, coverage: Coverage, digest: nat, state: S, tally: Tally<A>)
    ensures SealedWith(fold, coverage.(digest := digest), state, tally) == SealedWith(fold, coverage, state, tally)
  {
    assert ClaimBytes(coverage.(digest := digest), fold.spell) == ClaimBytes(coverage, fold.spell);
  }

  lemma CoversFolds<S(!new), A(!new)>(
    fold: Fold<S, A>, cached: Cached<S, A>, lines: seq<FinishedLine>, cuts: seq<nat>, cut: nat
  )
    requires Holds(fold, cached, lines, cuts) && LastCut(cuts) <= cut <= |lines|
    ensures ValidCuts(cuts + [cut], |lines|)
    ensures Covers(fold, cached, lines[LastCut(cuts)..cut]).covered
         == StateOver(fold, fold.empty, Barriered(lines, cuts + [cut]))
  {
    CutOnce(lines, cuts, cut);
    StateJoins(fold, fold.empty, Barriered(lines, cuts), Merged(Records(lines[LastCut(cuts)..cut])));
  }

  lemma CoveredTallyIs<S, A>(fold: Fold<S, A>, cached: Cached<S, A>, lines: seq<FinishedLine>)
    ensures Covers(fold, cached, lines).coveredTally
         == TallyOver(fold, Met(cached.coveredTally, lines, cached.coverage.records), Merged(Records(lines)))
  {
  }

  lemma CoversCounts<S(!new), A(!new)>(
    fold: Fold<S, A>, cached: Cached<S, A>, lines: seq<FinishedLine>, cuts: seq<nat>, cut: nat
  )
    requires Holds(fold, cached, lines, cuts) && LastCut(cuts) <= cut <= |lines|
    ensures ValidCuts(cuts + [cut], |lines|)
    ensures Covers(fold, cached, lines[LastCut(cuts)..cut]).coveredTally
         == Counted(fold, lines[..cut], Barriered(lines, cuts + [cut]))
  {
    var k := LastCut(cuts);
    var front, taken, through, order := lines[..k], lines[k..cut], lines[..cut], Barriered(lines, cuts);
    CutOnce(lines, cuts, cut);
    PrefixGrows(lines, k, cut, front, taken, through);
    TakenCounts(fold, cached, front, taken, through, order);
  }

  lemma PrefixGrows<T>(s: seq<T>, k: nat, cut: nat, front: seq<T>, taken: seq<T>, through: seq<T>)
    requires k <= cut <= |s| && front == s[..k] && taken == s[k..cut] && through == s[..cut]
    ensures through == front + taken
  {
  }

  lemma TakenCounts<S(!new), A(!new)>(
    fold: Fold<S, A>, cached: Cached<S, A>, front: seq<FinishedLine>, taken: seq<FinishedLine>,
    through: seq<FinishedLine>, order: seq<Envelope>
  )
    requires through == front + taken && cached.coverage == Covering(front, cached.coverage.digest)
    requires cached.coveredTally == Counted(fold, front, order)
    ensures Covers(fold, cached, taken).coveredTally == Counted(fold, through, order + Merged(Records(taken)))
  {
    CoveringIsExact(front, cached.coverage.digest);
    CoveredTallyIs(fold, cached, taken);
    TallyResumes(fold, front, taken, order, Merged(Records(taken)));
  }

  lemma CoversMarks<S(!new), A(!new)>(
    fold: Fold<S, A>, cached: Cached<S, A>, lines: seq<FinishedLine>, cuts: seq<nat>, cut: nat
  )
    requires Holds(fold, cached, lines, cuts) && LastCut(cuts) <= cut <= |lines|
    ensures var half := Covers(fold, cached, lines[LastCut(cuts)..cut]);
      && half.coverage == Covering(lines[..cut], half.coverage.digest)
      && (cut > 0 ==> half.coverage.digest == SealedWith(fold, half.coverage, half.covered, half.coveredTally))
  {
    var k := LastCut(cuts);
    var taken := lines[k..cut];
    if taken != [] {
      PrefixGrows(lines, k, cut, lines[..k], taken, lines[..cut]);
      TakenMarks(fold, cached, lines[..k], taken, lines[..cut]);
    } else {
      assert lines[..k] == lines[..cut];
      NothingMarks(fold, cached, taken);
    }
  }

  lemma TakenMarks<S(!new), A(!new)>(
    fold: Fold<S, A>, cached: Cached<S, A>, front: seq<FinishedLine>, taken: seq<FinishedLine>,
    through: seq<FinishedLine>
  )
    requires taken != [] && through == front + taken && cached.coverage == Covering(front, cached.coverage.digest)
    ensures var half := Covers(fold, cached, taken);
      && half.coverage == Covering(through, half.coverage.digest)
      && half.coverage.digest == SealedWith(fold, half.coverage, half.covered, half.coveredTally)
  {
    var half := Covers(fold, cached, taken);
    AbsorbingCovers(front, taken, cached.coverage.digest);
    DigestUnread(through, cached.coverage.digest, half.coverage.digest);
    SealIgnoresItself(fold, Absorbing(cached.coverage, taken), half.coverage.digest, half.covered, half.coveredTally);
  }

  lemma NothingMarks<S, A>(fold: Fold<S, A>, cached: Cached<S, A>, taken: seq<FinishedLine>)
    requires taken == []
    ensures Covers(fold, cached, taken) == cached
  {
    assert cached.coveredTally.losses + [] == cached.coveredTally.losses;
  }

  /** Covering more lines leaves the covered half what it says it is. */
  lemma CoversHolds<S(!new), A(!new)>(
    fold: Fold<S, A>, cached: Cached<S, A>, lines: seq<FinishedLine>, cuts: seq<nat>, cut: nat
  )
    requires Holds(fold, cached, lines, cuts) && LastCut(cuts) <= cut <= |lines|
    ensures Holds(fold, Covers(fold, cached, lines[LastCut(cuts)..cut]), lines, cuts + [cut])
  {
    CoversFolds(fold, cached, lines, cuts, cut);
    CoversCounts(fold, cached, lines, cuts, cut);
    CoversMarks(fold, cached, lines, cuts, cut);
  }

  lemma OpensCurrent<S(!new), A(!new)>(fold: Fold<S, A>, cached: Cached<S, A>, lines: seq<FinishedLine>, cuts: seq<nat>)
    requires Holds(fold, cached, lines, cuts)
    ensures Current(fold, Opens(fold, cached, lines[LastCut(cuts)..]), lines, cuts)
  {
    var k := LastCut(cuts);
    Rejoined(lines, k);
    AheadIsCurrent(fold, cached, lines[..k], lines[k..], lines, Barriered(lines, cuts));
  }

  /** What a reader of the covered half makes of the lines past it. */
  lemma AheadIsCurrent<S(!new), A(!new)>(
    fold: Fold<S, A>, cached: Cached<S, A>, front: seq<FinishedLine>, ahead: seq<FinishedLine>,
    lines: seq<FinishedLine>, order: seq<Envelope>
  )
    requires lines == front + ahead && cached.coverage == Covering(front, cached.coverage.digest)
    requires cached.covered == StateOver(fold, fold.empty, order) && cached.coveredTally == Counted(fold, front, order)
    ensures var reader, more := Opens(fold, cached, ahead), order + Merged(Records(ahead));
      && reader.state == StateOver(fold, fold.empty, more) && reader.tally == Counted(fold, lines, more)
      && reader.readThrough == SizeOf(lines) && reader.linesThrough == |lines|
      && Reaches(reader.claimedPast, Records(ahead))
  {
    CoveringIsExact(front, cached.coverage.digest);
    StateJoins(fold, fold.empty, order, Merged(Records(ahead)));
    TallyResumes(fold, front, ahead, order, Merged(Records(ahead)));
    RecordsJoin(front, ahead);
    ClaimedReaches(Records(ahead));
  }

  /** `take_with` over everything past the marker, whatever it holds back. */
  lemma TookIsCurrent<S(!new), A(!new)>(
    fold: Fold<S, A>, cached: Cached<S, A>, lines: seq<FinishedLine>, cuts: seq<nat>, open: OpenInstant
  )
      returns (cut: nat)
    requires Holds(fold, cached, lines, cuts)
    ensures cut == LastCut(cuts) + Extent(lines[LastCut(cuts)..], open) <= |lines|
    ensures Current(fold, Took(fold, cached, lines[LastCut(cuts)..], open), lines, cuts + [cut])
  {
    var k := LastCut(cuts);
    var grown := lines[k..];
    var accountable := Extent(grown, open);
    cut := k + accountable;
    var piece, rest, longer := lines[k..cut], lines[cut..], cuts + [cut];
    GrownPieces(lines, k, cut, grown, accountable, piece, rest);
    var half := Covers(fold, cached, piece);
    CoversHolds(fold, cached, lines, cuts, cut);
    assert LastCut(longer) == cut;
    OpensCurrent(fold, half, lines, longer);
  }

  lemma GrownPieces<T>(s: seq<T>, from: nat, cut: nat, grown: seq<T>, count: nat, piece: seq<T>, rest: seq<T>)
    requires from <= cut <= |s| && grown == s[from..] && count == cut - from && piece == s[from..cut] &&
      rest == s[cut..]
    ensures count <= |grown| && grown[..count] == piece && grown[count..] == rest
  {
  }

  // ---- the journal grows -------------------------------------------------

  lemma FewerCuts(cuts: seq<nat>, n: nat)
    requires ValidCuts(cuts, n) && cuts != []
    ensures ValidCuts(cuts[..|cuts| - 1], n)
    ensures LastCut(cuts[..|cuts| - 1]) <= LastCut(cuts) <= n
  {
  }

  lemma SamePiece<T>(xs: seq<T>, longer: seq<T>, from: nat, to: nat)
    requires xs <= longer && from <= to <= |xs|
    ensures xs[from..to] == longer[from..to]
  {
  }

  lemma {:induction false} BarriersStand(lines: seq<FinishedLine>, longer: seq<FinishedLine>, cuts: seq<nat>)
    requires lines <= longer && ValidCuts(cuts, |lines|)
    ensures ValidCuts(cuts, |longer|) && Barriered(longer, cuts) == Barriered(lines, cuts)
    decreases |cuts|
  {
    if cuts != [] {
      FewerCuts(cuts, |lines|);
      BarriersStand(lines, longer, cuts[..|cuts| - 1]);
      SamePiece(lines, longer, LastCut(cuts[..|cuts| - 1]), LastCut(cuts));
    }
  }

  lemma HoldsAsItGrows<S(!new), A(!new)>(
    fold: Fold<S, A>, cached: Cached<S, A>, lines: seq<FinishedLine>, longer: seq<FinishedLine>, cuts: seq<nat>
  )
    requires lines <= longer
    requires ValidCuts(cuts, |lines|)
    ensures Holds(fold, cached, lines, cuts) <==> Holds(fold, cached, longer, cuts)
  {
    BarriersStand(lines, longer, cuts);
    assert longer[..LastCut(cuts)] == lines[..LastCut(cuts)];
  }

  function AllLines(file: File): seq<FinishedLine> {
    Finished(file.lines, 0)
  }

  lemma FinishedFirst(lines: seq<Line>, line: Line, rest: seq<Line>, offset: nat, next: nat)
    requires lines == [line] + rest && next == offset + line.bytes + 1
    ensures Finished(lines, offset) == [Finish(line, offset)] + Finished(rest, next)
    ensures LinesSize(lines) == line.bytes + 1 + LinesSize(rest)
  {
    assert lines[1..] == rest;
  }

  lemma {:induction false} FinishedJoin(a: seq<Line>, b: seq<Line>, offset: nat, next: nat)
    requires next == offset + LinesSize(a)
    ensures Finished(a + b, offset) == Finished(a, offset) + Finished(b, next)
    decreases |a|
  {
    if a == [] {
      assert a + b == b;
    } else {
      var rest, second := a[1..], offset + a[0].bytes + 1;
      FinishedFirst(a, a[0], rest, offset, second);
      assert a + b == [a[0]] + (rest + b);
      FinishedFirst(a + b, a[0], rest + b, offset, second);
      FinishedJoin(rest, b, second, next);
    }
  }

  lemma {:induction false} FinishedSize(lines: seq<Line>, offset: nat)
    ensures SizeOf(Finished(lines, offset)) == LinesSize(lines)
    decreases |lines|
  {
    if lines != [] {
      var last := |lines| - 1;
      FinishedSize(lines[..last], offset);
      assert lines == lines[..last] + [lines[last]];
      FinishedJoin(lines[..last], [lines[last]], offset, offset + LinesSize(lines[..last]));
      SizesJoin(lines[..last], [lines[last]]);
    }
  }

  lemma {:induction false} SizesJoin(a: seq<Line>, b: seq<Line>)
    ensures LinesSize(a + b) == LinesSize(a) + LinesSize(b)
    decreases |a|
  {
    if a == [] {
      assert a + b == b;
    } else {
      assert (a + b)[1..] == a[1..] + b;
      SizesJoin(a[1..], b);
    }
  }

  lemma {:induction false} LineAtBoundary(lines: seq<Line>, k: nat)
    requires k <= |lines|
    ensures LineAt(lines, LinesSize(lines[..k])) == k
    decreases k
  {
    if k > 0 {
      assert lines[..k][1..] == lines[1..][..k - 1];
      LineAtBoundary(lines[1..], k - 1);
    }
  }

  lemma Rejoined<T>(xs: seq<T>, k: nat)
    requires k <= |xs|
    ensures xs == xs[..k] + xs[k..]
  {
  }

  lemma Halves<T>(whole: seq<T>, front: seq<T>, rest: seq<T>)
    requires whole == front + rest
    ensures whole[..|front|] == front && whole[|front|..] == rest
  {
  }

  lemma FinishedHalves(lines: seq<Line>, k: nat, offset: nat, next: nat)
    requires k <= |lines| && next == offset + LinesSize(lines[..k])
    ensures Finished(lines[..k], offset) == Finished(lines, offset)[..k]
    ensures Finished(lines[k..], next) == Finished(lines, offset)[k..]
  {
    Rejoined(lines, k);
    FinishedJoin(lines[..k], lines[k..], offset, next);
    Halves(Finished(lines, offset), Finished(lines[..k], offset), Finished(lines[k..], next));
  }

  lemma MarkerIsBoundary(file: File, k: nat)
    requires k <= |file.lines|
    ensures SizeOf(AllLines(file)[..k]) == LinesSize(file.lines[..k])
    ensures LineAt(file.lines, SizeOf(AllLines(file)[..k])) == k
  {
    FinishedHalves(file.lines, k, 0, LinesSize(file.lines[..k]));
    FinishedSize(file.lines[..k], 0);
    LineAtBoundary(file.lines, k);
  }

  /** Where a marker of the first `k` lines resumes, and what is left to read there. */
  lemma ResumesAtTheBoundary(file: File, k: nat)
    requires k <= |file.lines|
    ensures FinishedLinesFrom(file, SizeOf(AllLines(file)[..k])) == AllLines(file)[k..]
  {
    MarkerIsBoundary(file, k);
    FinishedHalves(file.lines, k, 0, LinesSize(file.lines[..k]));
  }

  lemma PieceOf<T>(xs: seq<T>, k: nat, count: nat)
    requires k + count <= |xs|
    ensures xs[k..][..count] == xs[k..k + count]
  {
  }

  /** A window read from a marker holds the next lines, none where the first does not fit. */
  lemma WindowReads(file: File, k: nat, window: nat, count: nat)
    requires k <= |file.lines| && count == Fitting(file.lines[k..], window)
    ensures FinishedLinesWithin(file, SizeOf(AllLines(file)[..k]), window) == AllLines(file)[k..k + count]
  {
    MarkerIsBoundary(file, k);
    FinishedHalves(file.lines, k, 0, LinesSize(file.lines[..k]));
    var from := LinesSize(file.lines[..k]);
    FinishedHalves(file.lines[k..], count, from, from + LinesSize(file.lines[k..][..count]));
    PieceOf(AllLines(file), k, count);
  }

  lemma GrownIsLonger(file: File, grown: File)
    requires file.lines <= grown.lines
    ensures AllLines(file) <= AllLines(grown)
  {
    assert grown.lines == file.lines + grown.lines[|file.lines|..];
    FinishedJoin(file.lines, grown.lines[|file.lines|..], 0, LinesSize(file.lines));
  }

  lemma FrontWithin(file: File, k: nat)
    requires k <= |file.lines|
    ensures SizeOf(AllLines(file)[..k]) <= LengthOf(file)
  {
    MarkerIsBoundary(file, k);
    assert file.lines == file.lines[..k] + file.lines[k..];
    SizesJoin(file.lines[..k], file.lines[k..]);
  }

  lemma MarkerWithin<S(!new), A(!new)>(fold: Fold<S, A>, cached: Cached<S, A>, file: File, cuts: seq<nat>)
    requires Holds(fold, cached, AllLines(file), cuts)
    ensures cached.coverage.bytes == SizeOf(AllLines(file)[..LastCut(cuts)]) <= LengthOf(file)
    ensures FinishedLinesFrom(file, cached.coverage.bytes) == AllLines(file)[LastCut(cuts)..]
  {
    CoveringIsExact(AllLines(file)[..LastCut(cuts)], cached.coverage.digest);
    ResumesAtTheBoundary(file, LastCut(cuts));
    FrontWithin(file, LastCut(cuts));
  }

  // ---- refresh, rebuild and reopen ---------------------------------------

  lemma EmptyHolds<S(!new), A(!new)>(fold: Fold<S, A>, lines: seq<FinishedLine>)
    ensures Holds(fold, Empty(fold), lines, [])
  {
    assert lines[..0] == [];
    assert EmptyTally(fold).losses + [] == EmptyTally(fold).losses;
  }

  /**
   Where the windows of a rebuild end, by line: each holds as many of the lines left as fit it,
   one that fits none is doubled, and what fits the last window is left.
   */
  function WindowCuts(file: File, k: nat, window: nat): seq<nat>
    requires window >= 1 && LengthOf(file) <= U64_MAX
    decreases |file.lines| - k, U64_MAX - window
  {
    if k > |file.lines| || window >= Remaining(file, LinesSize(file.lines[..k])) then []
    else
      var count := Fitting(file.lines[k..], window);
      if count == 0 then WindowCuts(file, k, Doubled(window)) else [k + count] + WindowCuts(file, k + count, window)
  }

  /** A rebuild covers whole windows, each in its own merge order: its cuts are where they end. */
  lemma {:induction false} RebuiltHolds<S(!new), A(!new)>(
    fold: Fold<S, A>, cached: Cached<S, A>, file: File, window: nat, cuts: seq<nat>, k: nat
  ) returns (all: seq<nat>)
    requires window >= 1 && LengthOf(file) <= U64_MAX
    requires Holds(fold, cached, AllLines(file), cuts) && k == LastCut(cuts) <= |file.lines|
    ensures all == cuts + WindowCuts(file, k, window)
    ensures Holds(fold, Rebuilt(fold, cached, file, window), AllLines(file), all)
    decreases |file.lines| - k, U64_MAX - window
  {
    MarkerAt(fold, cached, file, cuts, k);
    if window >= Remaining(file, LinesSize(file.lines[..k])) {
      RebuildEnds(fold, cached, file, window, k);
      all := cuts;
    } else if Fitting(file.lines[k..], window) == 0 {
      RebuildWidens(fold, cached, file, window, k);
      all := RebuiltHolds(fold, cached, file, Doubled(window), cuts, k);
    } else {
      var cut, next := RebuildAdvances(fold, cached, file, window, k);
      var longer := cuts + [cut];
      WindowHolds(fold, cached, file, cuts, cut, next);
      all := RebuiltHolds(fold, next, file, window, longer, cut);
      CutsGoOn(file, k, window, cut, cuts, longer, all);
    }
  }

  lemma CutsGoOn(file: File, k: nat, window: nat, cut: nat, cuts: seq<nat>, longer: seq<nat>, all: seq<nat>)
    requires window >= 1 && LengthOf(file) <= U64_MAX && k <= |file.lines|
    requires window < Remaining(file, LinesSize(file.lines[..k])) && k < cut == k + Fitting(file.lines[k..], window)
    requires longer == cuts + [cut] && all == longer + WindowCuts(file, cut, window)
    ensures all == cuts + WindowCuts(file, k, window)
  {
    WindowCutsAdvance(file, k, window, cut);
  }

  lemma WindowHolds<S(!new), A(!new)>(
    fold: Fold<S, A>, cached: Cached<S, A>, file: File, cuts: seq<nat>, cut: nat, next: Cached<S, A>
  )
    requires Holds(fold, cached, AllLines(file), cuts) && LastCut(cuts) <= cut <= |AllLines(file)|
    requires next == Took(fold, cached, AllLines(file)[LastCut(cuts)..cut], Covered)
    ensures Holds(fold, next, AllLines(file), cuts + [cut])
  {
    CoveredWhole(fold, cached, AllLines(file), cuts, cut);
  }

  /** Whether a fold's marker stops after the first `k` lines. */
  ghost predicate StopsAfter<S, A>(cached: Cached<S, A>, file: File, k: nat) {
    && k <= |file.lines|
    && cached.coverage.bytes == LinesSize(file.lines[..k]) == SizeOf(AllLines(file)[..k])
    && cached.coverage.records == k
  }

  /** A marker's bytes are those of the lines it stops after. */
  lemma MarkerAt<S(!new), A(!new)>(fold: Fold<S, A>, cached: Cached<S, A>, file: File, cuts: seq<nat>, k: nat)
    requires Holds(fold, cached, AllLines(file), cuts) && k == LastCut(cuts) <= |file.lines|
    ensures StopsAfter(cached, file, k)
  {
    CoveringIsExact(AllLines(file)[..k], cached.coverage.digest);
    MarkerIsBoundary(file, k);
  }

  lemma RebuildEnds<S, A>(fold: Fold<S, A>, cached: Cached<S, A>, file: File, window: nat, k: nat)
    requires window >= 1 && LengthOf(file) <= U64_MAX && StopsAfter(cached, file, k)
    requires window >= Remaining(file, LinesSize(file.lines[..k]))
    ensures Rebuilt(fold, cached, file, window) == cached && WindowCuts(file, k, window) == []
  {
  }

  /** A window that finishes no line is widened, short of the largest length there is. */
  lemma RebuildWidens<S, A>(fold: Fold<S, A>, cached: Cached<S, A>, file: File, window: nat, k: nat)
    requires window >= 1 && LengthOf(file) <= U64_MAX && StopsAfter(cached, file, k)
    requires window < Remaining(file, LinesSize(file.lines[..k])) && Fitting(file.lines[k..], window) == 0
    ensures window < Doubled(window) <= U64_MAX
    ensures Rebuilt(fold, cached, file, window) == Rebuilt(fold, cached, file, Doubled(window))
    ensures WindowCuts(file, k, window) == WindowCuts(file, k, Doubled(window))
  {
    WindowReads(file, k, window, 0);
  }

  /** A window that finishes some lines covers just those, and goes on from there. */
  lemma RebuildAdvances<S, A>(fold: Fold<S, A>, cached: Cached<S, A>, file: File, window: nat, k: nat)
      returns (cut: nat, next: Cached<S, A>)
    requires window >= 1 && LengthOf(file) <= U64_MAX && StopsAfter(cached, file, k)
    requires window < Remaining(file, LinesSize(file.lines[..k])) && Fitting(file.lines[k..], window) > 0
    ensures k < cut <= |file.lines| && next == Took(fold, cached, AllLines(file)[k..cut], Covered)
    ensures cut == k + Fitting(file.lines[k..], window)
    ensures Rebuilt(fold, cached, file, window) == Rebuilt(fold, next, file, window)
  {
    var count := Fitting(file.lines[k..], window);
    cut := k + count;
    WindowReads(file, k, window, count);
    var grown := AllLines(file)[k..cut];
    next := Took(fold, cached, grown, Covered);
    RebuildStep(fold, cached, file, window, grown);
  }

  lemma WindowCutsAdvance(file: File, k: nat, window: nat, cut: nat)
    requires window >= 1 && LengthOf(file) <= U64_MAX && k <= |file.lines|
    requires window < Remaining(file, LinesSize(file.lines[..k])) && k < cut == k + Fitting(file.lines[k..], window)
    ensures WindowCuts(file, k, window) == [cut] + WindowCuts(file, cut, window)
  {
  }

  lemma RebuildStep<S, A>(fold: Fold<S, A>, cached: Cached<S, A>, file: File, window: nat, grown: seq<FinishedLine>)
    requires window >= 1 && LengthOf(file) <= U64_MAX
    requires window < Remaining(file, cached.coverage.bytes)
    requires grown == FinishedLinesWithin(file, cached.coverage.bytes, window) != []
    ensures Rebuilt(fold, cached, file, window) == Rebuilt(fold, Took(fold, cached, grown, Covered), file, window)
  {
    TookAll(fold, cached, grown);
  }

  lemma OpensHolds<S(!new), A(!new)>(fold: Fold<S, A>, cached: Cached<S, A>, lines: seq<FinishedLine>, cuts: seq<nat>)
    requires Holds(fold, cached, lines, cuts)
    ensures Holds(fold, Opens(fold, cached, []), lines, cuts)
  {
  }

  lemma CoveredWhole<S(!new), A(!new)>(
    fold: Fold<S, A>, cached: Cached<S, A>, lines: seq<FinishedLine>, cuts: seq<nat>, cut: nat
  )
    requires Holds(fold, cached, lines, cuts) && LastCut(cuts) <= cut <= |lines|
    ensures Holds(fold, Took(fold, cached, lines[LastCut(cuts)..cut], Covered), lines, cuts + [cut])
  {
    var grown := lines[LastCut(cuts)..cut];
    CoversHolds(fold, cached, lines, cuts, cut);
    TookCovers(fold, cached, grown);
    OpensHolds(fold, Covers(fold, cached, grown), lines, cuts + [cut]);
  }

  /** Where a refresh moves the marker to: past everything but the last instant's trailing records. */
  function NextCut(lines: seq<FinishedLine>, cuts: seq<nat>): nat {
    if LastCut(cuts) > |lines| then LastCut(cuts) else LastCut(cuts) + BeforeTheOpenInstant(lines[LastCut(cuts)..])
  }

  /** A refresh of a journal still holding what the marker covers reads only what is past it. */
  lemma RefreshedIsCurrent<S(!new), A(!new)>(fold: Fold<S, A>, cached: Cached<S, A>, file: File, cuts: seq<nat>)
      returns (cut: nat, longer: seq<nat>)
    requires LengthOf(file) <= U64_MAX
    requires Holds(fold, cached, AllLines(file), cuts)
    ensures cut == NextCut(AllLines(file), cuts) <= |AllLines(file)| && longer == cuts + [cut]
    ensures Current(fold, Refreshed(fold, cached, file), AllLines(file), longer)
  {
    MarkerWithin(fold, cached, file, cuts);
    cut := TookIsCurrent(fold, cached, AllLines(file), cuts, HeldBack);
    longer := cuts + [cut];
  }

  /** The cuts of a fold that rebuilds on from these. */
  function RebuildCuts(file: File, cuts: seq<nat>): seq<nat>
    requires LengthOf(file) <= U64_MAX
  {
    cuts + WindowCuts(file, LastCut(cuts), REBUILD_WINDOW)
  }

  /** The cuts of a fold that starts off a document, or off nothing, before it reads on. */
  function StartingCuts<S, A>(
    fold: Fold<S, A>, run: string, document: Option<Document<S, A>>, file: File, cuts: seq<nat>
  ): seq<nat>
    requires LengthOf(file) <= U64_MAX
  {
    var before := if Usable(fold, run, document, file) then cuts else [];
    if Usable(fold, run, document, file) && document.value.coverage.bytes > 0 then before
    else RebuildCuts(file, before)
  }

  /** Where a journal is shorter than the marker, a refresh starts from nothing and forgets all that was held. */
  lemma CutBackIsRefolded<S(!new), A(!new)>(
    fold: Fold<S, A>, cached: Cached<S, A>, file: File
  ) returns (cuts: seq<nat>, cut: nat)
    requires LengthOf(file) <= U64_MAX && LengthOf(file) < cached.coverage.bytes
    ensures cuts == RebuildCuts(file, [])
    ensures ValidCuts(cuts, |AllLines(file)|) && cut == NextCut(AllLines(file), cuts)
    ensures Current(fold, Refreshed(fold, cached, file), AllLines(file), cuts + [cut])
    ensures Refreshed(fold, cached, file) == Opened(fold, "", None, file)
  {
    EmptyHolds(fold, AllLines(file));
    cuts := RebuiltHolds(fold, Empty(fold), file, REBUILD_WINDOW, [], 0);
    MarkerWithin(fold, Rebuilt(fold, Empty(fold), file, REBUILD_WINDOW), file, cuts);
    RereadIsAnOpening(fold, cached, file);
    var longer;
    cut, longer := RefreshedIsCurrent(fold, Rebuilt(fold, Empty(fold), file, REBUILD_WINDOW), file, cuts);
  }

  lemma RereadIsAnOpening<S, A>(fold: Fold<S, A>, cached: Cached<S, A>, file: File)
    requires LengthOf(file) <= U64_MAX && LengthOf(file) < cached.coverage.bytes
    requires Rebuilt(fold, Empty(fold), file, REBUILD_WINDOW).coverage.bytes <= LengthOf(file)
    ensures Refreshed(fold, cached, file)
         == Refreshed(fold, Rebuilt(fold, Empty(fold), file, REBUILD_WINDOW), file)
         == Opened(fold, "", None, file)
  {
  }

  lemma StartingHolds<S(!new), A(!new)>(
    fold: Fold<S, A>, run: string, document: Option<Document<S, A>>, file: File, cuts: seq<nat>
  ) returns (before: seq<nat>)
    requires LengthOf(file) <= U64_MAX && ValidCuts(cuts, |AllLines(file)|)
    requires Usable(fold, run, document, file) ==> Holds(fold, Resumed(document.value), AllLines(file), cuts)
    ensures before == StartingCuts(fold, run, document, file, cuts)
    ensures Holds(fold, Starting(fold, run, document, file), AllLines(file), before)
  {
    EmptyHolds(fold, AllLines(file));
    var usable := Usable(fold, run, document, file);
    var from := if usable then Resumed(document.value) else Empty(fold);
    before := if usable then cuts else [];
    if from.coverage.bytes == 0 {
      before := RebuiltHolds(fold, from, file, REBUILD_WINDOW, before, LastCut(before));
    }
  }

  /** A reader that opens a run, off a document or off nothing, holds what one that read it all along would. */
  lemma OpenedIsCurrent<S(!new), A(!new)>(
    fold: Fold<S, A>, run: string, document: Option<Document<S, A>>, file: File, cuts: seq<nat>
  ) returns (before: seq<nat>, cut: nat, longer: seq<nat>)
    requires LengthOf(file) <= U64_MAX && ValidCuts(cuts, |AllLines(file)|)
    requires Usable(fold, run, document, file) ==> Holds(fold, Resumed(document.value), AllLines(file), cuts)
    ensures before == StartingCuts(fold, run, document, file, cuts) && ValidCuts(before, |AllLines(file)|)
    ensures cut == NextCut(AllLines(file), before) <= |AllLines(file)| && longer == before + [cut]
    ensures Current(fold, Opened(fold, run, document, file), AllLines(file), longer)
  {
    before := StartingHolds(fold, run, document, file, cuts);
    cut, longer := RefreshedIsCurrent(fold, Starting(fold, run, document, file), file, before);
  }

  /** What a writer leaves is resumed from wherever the journal still holds what it covers. */
  lemma WrittenIsUsable<S(!new), A(!new)>(
    fold: Fold<S, A>, run: string, cached: Cached<S, A>, file: File, cuts: seq<nat>
  )
    requires Holds(fold, cached, AllLines(file), cuts) && LastCut(cuts) > 0
    ensures Usable(fold, run, Some(DocumentOf(run, cached)), file)
    ensures Holds(fold, Resumed(DocumentOf(run, cached)), AllLines(file), cuts)
  {
    MarkerWithin(fold, cached, file, cuts);
  }
}
