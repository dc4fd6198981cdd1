/**
 How much of a journal one read takes (src/checkpoint.rs, `rebuild_in`, `extent` and
 `before_the_open_instant`; src/journal.rs, `finished_lines_within`): said of sizes and
 stamps, with no reader in it.
 */
module CheckpointWindows {
  import opened Checkpoint
  import opened CheckpointRuns
  import opened Journal
  import opened Wrappers

  // ---- a read of so many bytes -------------------------------------------

  /** A read within `len` bytes takes just the lines that end within them: every one that does, and no other. */
  lemma {:induction false} FittingIsExact(lines: seq<Line>, len: nat, n: nat)
    requires n <= |lines|
    ensures n <= Fitting(lines, len) <==> LinesSize(lines[..n]) <= len
    decreases |lines|
  {
    if n > 0 {
      assert lines[..n][1..] == lines[1..][..n - 1];
      if lines[0].bytes + 1 <= len {
        FittingIsExact(lines[1..], len - (lines[0].bytes + 1), n - 1);
      }
    }
  }

  /** A read from a byte begins with the first line that begins there or after. */
  lemma {:induction false} LineAtIsExact(lines: seq<Line>, from: nat, n: nat)
    requires n <= |lines|
    ensures n < LineAt(lines, from) ==> LinesSize(lines[..n]) < from
    ensures LineAt(lines, from) <= n && LineAt(lines, from) < |lines| ==> from <= LinesSize(lines[..n])
    decreases |lines|
  {
    if from > 0 && lines != [] {
      var next := if lines[0].bytes + 1 <= from then from - (lines[0].bytes + 1) else 0;
      if n > 0 {
        assert lines[..n][1..] == lines[1..][..n - 1];
        LineAtIsExact(lines[1..], next, n - 1);
      }
    }
  }

  /** What a writer has not terminated counts: ending the line adds its one byte and no more. */
  lemma TailIsALine(lines: seq<Line>, line: Line)
    ensures LengthOf(File(lines + [line], None)) == LengthOf(File(lines, Some(line))) + 1
  {
    SizesJoin(lines, [line]);
  }

  // ---- the windows of a rebuild ------------------------------------------

  /** The window a rebuild reads a line of this size in: the one in force, doubled until the line fits. */
  function Widened(window: nat, size: nat): (wide: nat)
    requires 1 <= window && size <= U64_MAX
    ensures window <= wide && size <= wide && (window <= U64_MAX ==> wide <= U64_MAX)
    decreases if size > window then size - window else 0
  {
    if size <= window then window else Widened(if window * 2 > U64_MAX then U64_MAX else window * 2, size)
  }

  /** The lines between two cuts are a whole window's: they fit it, and one more would not. */
  ghost predicate IsFull(lines: seq<Line>, from: nat, cut: nat, window: nat) {
    && from < cut <= |lines|
    && LinesSize(lines[from..cut]) <= window
    && (cut < |lines| ==> LinesSize(lines[from..cut + 1]) > window)
  }

  /** Whether `wide` is the window a rebuild left with `window` goes on with: as it was, or widened to the next line. */
  ghost predicate IsInForce(file: File, from: nat, window: nat, wide: nat) {
    && from < |file.lines| && 1 <= window && file.lines[from].bytes + 1 <= U64_MAX
    && wide == Widened(window, file.lines[from].bytes + 1)
    && wide < Remaining(file, LinesSize(file.lines[..from]))
  }

  /**
   Whether a rebuild left with `window` is over: what is left fits it, or will once it is widened to
   the next line.
   */
  ghost predicate IsOver(file: File, from: nat, window: nat) {
    from <= |file.lines| && 1 <= window &&
    var left := Remaining(file, LinesSize(file.lines[..from]));
    || left <= window
    || from == |file.lines|
    || (file.lines[from].bytes + 1 <= U64_MAX && left <= Widened(window, file.lines[from].bytes + 1))
  }

  lemma LineIsWithin(file: File, k: nat)
    requires k < |file.lines| && LengthOf(file) <= U64_MAX
    ensures file.lines[k].bytes + 1 <= U64_MAX
    ensures file.lines[k].bytes + 1 <= Remaining(file, LinesSize(file.lines[..k]))
  {
    assert file.lines == file.lines[..k] + file.lines[k..];
    SizesJoin(file.lines[..k], file.lines[k..]);
  }

  lemma SizeFromThere(lines: seq<Line>, k: nat, n: nat)
    requires k + n <= |lines|
    ensures lines[k..][..n] == lines[k..k + n]
  {
  }

  lemma OneWindowIsFull(lines: seq<Line>, k: nat, window: nat, count: nat)
    requires k <= |lines| && count == Fitting(lines[k..], window) > 0
    ensures IsFull(lines, k, k + count, window)
    ensures lines[k].bytes + 1 <= window
  {
    var rest := lines[k..];
    FittingIsExact(rest, window, count);
    SizeFromThere(lines, k, count);
    FittingIsExact(rest, window, 1);
    assert rest[..1][1..] == [] && rest[..1][0] == lines[k];
    if k + count < |lines| {
      FittingIsExact(rest, window, count + 1);
      SizeFromThere(lines, k, count + 1);
    }
  }

  lemma NoneFitsIsTooLong(lines: seq<Line>, k: nat, window: nat)
    requires k < |lines| && Fitting(lines[k..], window) == 0
    ensures lines[k].bytes + 1 > window
  {
  }

  /**
   A rebuild's cuts, with no reader in them: from each to the next the lines fill the window
   in force, which is the last one or, where the next line does not fit that, the first of its
   doublings that it does; and they end where what is left fits a window.
   */
  ghost predicate AreWindows(file: File, k: nat, window: nat, cuts: seq<nat>, windows: seq<nat>)
    decreases |cuts|
  {
    if cuts == [] then windows == [] && IsOver(file, k, window)
    else
      && windows != []
      && IsInForce(file, k, window, windows[0])
      && IsFull(file.lines, k, cuts[0], windows[0])
      && AreWindows(file, cuts[0], windows[0], cuts[1..], windows[1..])
  }

  lemma {:induction false} WindowsAreFull(file: File, k: nat, window: nat) returns (windows: seq<nat>)
    requires 1 <= window <= U64_MAX && LengthOf(file) <= U64_MAX && k <= |file.lines|
    ensures AreWindows(file, k, window, WindowCuts(file, k, window), windows)
    decreases |file.lines| - k, U64_MAX - window
  {
    if window >= Remaining(file, LinesSize(file.lines[..k])) {
      windows := [];
    } else if Fitting(file.lines[k..], window) == 0 {
      windows := WindowsAreFull(file, k, Doubled(window));
      WidensTheFirst(file, k, window, WindowCuts(file, k, Doubled(window)), windows);
    } else {
      var cut := k + Fitting(file.lines[k..], window);
      FirstWindow(file, k, window, cut);
      var rest := WindowsAreFull(file, cut, window);
      windows := [window] + rest;
      OneMoreWindow(file, k, window, cut, WindowCuts(file, cut, window), rest);
    }
  }

  lemma FirstWindow(file: File, k: nat, window: nat, cut: nat)
    requires 1 <= window <= U64_MAX && LengthOf(file) <= U64_MAX && k <= |file.lines|
    requires window < Remaining(file, LinesSize(file.lines[..k])) && k < cut == k + Fitting(file.lines[k..], window)
    ensures cut <= |file.lines| && IsFull(file.lines, k, cut, window) && IsInForce(file, k, window, window)
    ensures WindowCuts(file, k, window) == [cut] + WindowCuts(file, cut, window)
  {
    OneWindowIsFull(file.lines, k, window, cut - k);
    LineIsWithin(file, k);
    WindowCutsAdvance(file, k, window, cut);
  }

  lemma WidensTheFirst(file: File, k: nat, window: nat, cuts: seq<nat>, windows: seq<nat>)
    requires 1 <= window <= U64_MAX && LengthOf(file) <= U64_MAX && k <= |file.lines|
    requires window < Remaining(file, LinesSize(file.lines[..k])) && Fitting(file.lines[k..], window) == 0
    requires AreWindows(file, k, Doubled(window), cuts, windows)
    ensures AreWindows(file, k, window, cuts, windows)
  {
    if k < |file.lines| {
      LineIsWithin(file, k);
      NoneFitsIsTooLong(file.lines, k, window);
    }
  }

  lemma OneMoreWindow(file: File, k: nat, window: nat, cut: nat, cuts: seq<nat>, windows: seq<nat>)
    requires AreWindows(file, cut, window, cuts, windows) && IsFull(file.lines, k, cut, window)
    requires IsInForce(file, k, window, window)
    ensures AreWindows(file, k, window, [cut] + cuts, [window] + windows)
  {
    assert ([cut] + cuts)[1..] == cuts && ([window] + windows)[1..] == windows;
  }

  // ---- the open instant --------------------------------------------------

  /**
   Whether the records of `grown` from line `count` on are those of its last instant, and the line
   before is of another.
   */
  ghost predicate IsOpenFrom(grown: seq<FinishedLine>, count: nat) {
    && count <= |grown|
    && (forall i, j ::
          count <= i < |grown| && count <= j < |grown| && grown[i].record.Some? && grown[j].record.Some? ==>
          grown[i].record.value.ts == grown[j].record.value.ts)
    && (count > 0 ==>
          && grown[count - 1].record.Some?
          && exists j :: count <= j < |grown| && grown[j].record.Some?
                         && grown[j].record.value.ts != grown[count - 1].record.value.ts)
  }

  lemma {:induction false} LastRecordIs(grown: seq<FinishedLine>) returns (i: nat)
    ensures LastTs(grown).None? <==> forall j :: 0 <= j < |grown| ==> grown[j].record.None?
    ensures LastTs(grown).Some? ==>
              && i < |grown| && grown[i].record.Some? && LastTs(grown) == Some(grown[i].record.value.ts)
              && forall j :: i < j < |grown| ==> grown[j].record.None?
    decreases |grown|
  {
    i := 0;
    if grown != [] {
      if grown[|grown| - 1].record.Some? {
        i := |grown| - 1;
      } else {
        var front := grown[..|grown| - 1];
        i := LastRecordIs(front);
        assert forall j :: 0 <= j < |front| ==> grown[j] == front[j];
      }
    }
  }

  lemma {:induction false} OtherEndsThere(grown: seq<FinishedLine>, last: nat)
    ensures var count := ThroughOther(grown, last);
      && (forall j :: count <= j < |grown| && grown[j].record.Some? ==> grown[j].record.value.ts == last)
      && (count > 0 ==> grown[count - 1].record.Some? && grown[count - 1].record.value.ts != last)
    decreases |grown|
  {
    if grown != [] {
      OtherEndsThere(grown[..|grown| - 1], last);
    }
  }

  /**
   What a refresh holds back is exactly the trailing lines that share the last record's
   stamp: all are covered where none is a record, and otherwise up to the last of another stamp.
   */
  lemma OpenInstantIsExact(grown: seq<FinishedLine>, count: nat)
    ensures (forall i :: 0 <= i < |grown| ==> grown[i].record.None?) ==> BeforeTheOpenInstant(grown) == |grown|
    ensures (exists i :: 0 <= i < |grown| && grown[i].record.Some?) ==>
              (count == BeforeTheOpenInstant(grown) <==> IsOpenFrom(grown, count))
  {
    var i := LastRecordIs(grown);
    if LastTs(grown).Some? {
      var before := BeforeTheOpenInstant(grown);
      OtherEndsThere(grown, grown[i].record.value.ts);
      assert IsOpenFrom(grown, before);
      if IsOpenFrom(grown, count) {
        OpenFromIsUnique(grown, before, count, i);
      }
    }
  }

  lemma OpenFromIsUnique(grown: seq<FinishedLine>, a: nat, b: nat, i: nat)
    requires IsOpenFrom(grown, a) && IsOpenFrom(grown, b)
    requires i < |grown| && grown[i].record.Some? && forall j :: i < j < |grown| ==> grown[j].record.None?
    ensures a == b
  {
  }
}
