/**
 When the cuts a reader folded a store in leave no trace (src/checkpoint.rs), and why
 holding back the open instant of an orderly store makes cuts that leave none.
 */
module CheckpointCuts {
  import opened Checkpoint
  import opened CheckpointRuns
  import opened Journal
  import opened Merging
  import opened MergeSplit

  // ---- when the cuts leave no trace --------------------------------------

  /** Whether no record past a cut can sort ahead of one before it. */
  ghost predicate InFrontAt(lines: seq<FinishedLine>, cut: nat)
    requires cut <= |lines|
  {
    AllInFront(Records(lines[..cut]), Records(lines[cut..]))
  }

  lemma PieceInFront(lines: seq<FinishedLine>, from: nat, cut: nat)
    requires from <= cut <= |lines| && InFrontAt(lines, cut)
    ensures AllInFront(Records(lines[from..cut]), Records(lines[cut..]))
    ensures Records(lines[from..]) == Records(lines[from..cut]) + Records(lines[cut..])
  {
    assert lines[..cut] == lines[..from] + lines[from..cut];
    RecordsJoin(lines[..from], lines[from..cut]);
    assert lines[from..] == lines[from..cut] + lines[cut..];
    RecordsJoin(lines[from..cut], lines[cut..]);
    var front, piece := Records(lines[..from]), Records(lines[from..cut]);
    assert forall i :: 0 <= i < |piece| ==> piece[i] == (front + piece)[|front| + i];
  }

  /** Where every later record is in front of no cut, folding piece by piece is folding the whole store. */
  lemma {:induction false} CutsLeaveNoTrace(lines: seq<FinishedLine>, cuts: seq<nat>)
    requires ValidCuts(cuts, |lines|)
    requires forall i :: 0 <= i < |cuts| ==> InFrontAt(lines, cuts[i])
    ensures OrderOver(lines, cuts) == Merged(Records(lines))
    decreases |cuts|
  {
    if cuts == [] {
      Uncut(lines);
    } else {
      var before, last := cuts[..|cuts| - 1], LastCut(cuts);
      FewerCuts(cuts, |lines|);
      CutsLeaveNoTrace(lines, before);
      OneCutLeavesNoTrace(lines, before, last);
      CutsAre(cuts);
    }
  }

  lemma Uncut(lines: seq<FinishedLine>)
    ensures OrderOver(lines, []) == Merged(Records(lines))
  {
    assert lines[0..] == lines;
    assert [] + Merged(Records(lines)) == Merged(Records(lines));
  }

  lemma CutsAre(cuts: seq<nat>)
    requires cuts != []
    ensures cuts == cuts[..|cuts| - 1] + [LastCut(cuts)]
  {
  }

  lemma OneCutLeavesNoTrace(lines: seq<FinishedLine>, cuts: seq<nat>, cut: nat)
    requires ValidCuts(cuts, |lines|) && LastCut(cuts) <= cut <= |lines| && InFrontAt(lines, cut)
    ensures ValidCuts(cuts + [cut], |lines|)
    ensures OrderOver(lines, cuts + [cut]) == OrderOver(lines, cuts)
  {
    var piece, rest := Records(lines[LastCut(cuts)..cut]), Records(lines[cut..]);
    CutOnce(lines, cuts, cut);
    PieceInFront(lines, LastCut(cuts), cut);
    MergeSplits(piece, rest);
    Associates(Barriered(lines, cuts), Merged(piece), Merged(rest));
    assert LastCut(cuts + [cut]) == cut;
  }

  lemma Associates<T>(a: seq<T>, b: seq<T>, c: seq<T>)
    ensures (a + b) + c == a + (b + c)
  {
  }

  // ---- an orderly store --------------------------------------------------

  /** Whether records arrive with no timestamp going back, and no stream's own `seq` going back. */
  ghost predicate Orderly(events: seq<Envelope>) {
    forall i, j :: 0 <= i < j < |events| ==>
      events[i].ts <= events[j].ts && (events[i].stream == events[j].stream ==> events[i].number <= events[j].number)
  }

  /** Whether a cut falls between two instants: what is before it is stamped before what is after, and something is. */
  ghost predicate BetweenInstants(lines: seq<FinishedLine>, cut: nat)
    requires cut <= |lines|
  {
    var front, later := Records(lines[..cut]), Records(lines[cut..]);
    && (forall i, j :: 0 <= i < |front| && 0 <= j < |later| ==> front[i].ts < later[j].ts)
    && (front != [] ==> later != [])
  }

  lemma StampedBeforeIsInFront(front: seq<Envelope>, later: seq<Envelope>)
    requires Orderly(front + later)
    requires forall i, j :: 0 <= i < |front| && 0 <= j < |later| ==> front[i].ts < later[j].ts
    ensures AllInFront(front, later)
  {
    var all := front + later;
    forall i, j | 0 <= i < |front| && 0 <= j < |later| ensures InFront(front[i], later[j]) {
      assert all[i] == front[i] && all[|front| + j] == later[j];
    }
  }

  lemma SplitRecords(lines: seq<FinishedLine>, cut: nat)
    requires cut <= |lines|
    ensures Records(lines) == Records(lines[..cut]) + Records(lines[cut..])
  {
    assert lines == lines[..cut] + lines[cut..];
    RecordsJoin(lines[..cut], lines[cut..]);
  }

  lemma BetweenIsInFront(lines: seq<FinishedLine>, cut: nat)
    requires cut <= |lines| && Orderly(Records(lines)) && BetweenInstants(lines, cut)
    ensures InFrontAt(lines, cut)
  {
    SplitRecords(lines, cut);
    StampedBeforeIsInFront(Records(lines[..cut]), Records(lines[cut..]));
  }

  /** A cut between instants stays one however the store grows in order. */
  lemma BetweenStays(lines: seq<FinishedLine>, longer: seq<FinishedLine>, cut: nat)
    requires lines <= longer && cut <= |lines|
    requires Orderly(Records(longer)) && BetweenInstants(lines, cut)
    ensures BetweenInstants(longer, cut)
  {
    var front, back, grown := lines[..cut], lines[cut..], longer[|lines|..];
    LongerPieces(lines, longer, cut, front, back, grown);
    RecordsJoin(back, grown);
    RecordsJoin(front, back + grown);
    StaysBefore(Records(front), Records(back), Records(grown), Records(back + grown), Records(longer));
  }

  lemma LongerPieces<T>(s: seq<T>, longer: seq<T>, cut: nat, front: seq<T>, back: seq<T>, grown: seq<T>)
    requires s <= longer && cut <= |s| && front == s[..cut] && back == s[cut..] && grown == longer[|s|..]
    ensures longer[..cut] == front && longer[cut..] == back + grown && longer == front + (back + grown)
  {
  }

  lemma StaysBefore(
    front: seq<Envelope>, later: seq<Envelope>, more: seq<Envelope>, rest: seq<Envelope>, all: seq<Envelope>
  )
    requires rest == later + more && all == front + rest && Orderly(all) && (front != [] ==> later != [])
    requires forall i, j :: 0 <= i < |front| && 0 <= j < |later| ==> front[i].ts < later[j].ts
    ensures forall i, j :: 0 <= i < |front| && 0 <= j < |rest| ==> front[i].ts < rest[j].ts
    ensures front != [] ==> rest != []
  {
    forall i, j | 0 <= i < |front| && 0 <= j < |rest| ensures front[i].ts < rest[j].ts {
      if j >= |later| {
        assert front[i].ts < later[0].ts;
        assert all[|front|] == later[0] && all[|front| + j] == rest[j];
      }
    }
  }

  lemma {:induction false} LastTsIs(grown: seq<FinishedLine>)
    ensures LastTs(grown).None? <==> Records(grown) == []
    ensures LastTs(grown).Some? ==> LastTs(grown).value == Records(grown)[|Records(grown)| - 1].ts
    decreases |grown|
  {
    if grown != [] {
      LastTsIs(grown[..|grown| - 1]);
    }
  }

  /** Past the last record stamped otherwise, every record is stamped `last`; it is the last one before. */
  lemma {:induction false} ThroughOtherIs(grown: seq<FinishedLine>, last: nat)
    ensures var count := ThroughOther(grown, last);
      && (forall i :: 0 <= i < |Records(grown[count..])| ==> Records(grown[count..])[i].ts == last)
      && (count > 0 ==>
        Records(grown[..count]) != [] && Records(grown[..count])[|Records(grown[..count])| - 1].ts != last)
    decreases |grown|
  {
    var count := ThroughOther(grown, last);
    if grown != [] {
      var n := |grown| - 1;
      if grown[n].record.Some? && grown[n].record.value.ts != last {
        assert grown[..|grown|] == grown && grown[|grown|..] == [];
      } else {
        ThroughOtherIs(grown[..n], last);
        assert grown[..n][..count] == grown[..count];
        assert grown[count..][..n - count] == grown[..n][count..];
      }
    }
  }

  /** Whether the last record of `grown` is stamped `last`. */
  ghost predicate EndsAt(grown: seq<FinishedLine>, last: nat) {
    Records(grown) != [] && Records(grown)[|Records(grown)| - 1].ts == last
  }

  ghost predicate Datable(grown: seq<FinishedLine>) {
    Records(grown) != []
  }

  lemma OpenInstantCases(grown: seq<FinishedLine>) returns (last: nat)
    ensures !Datable(grown) ==> BeforeTheOpenInstant(grown) == |grown|
    ensures Datable(grown) ==> BeforeTheOpenInstant(grown) == ThroughOther(grown, last) && EndsAt(grown, last)
  {
    LastTsIs(grown);
    last := if LastTs(grown).Some? then LastTs(grown).value else 0;
  }

  /** What is held back is the open instant: cutting there falls between two instants of an orderly store. */
  lemma HeldBackIsBetween(lines: seq<FinishedLine>, from: nat, grown: seq<FinishedLine>, cut: nat)
    requires from <= cut <= |lines| && grown == lines[from..]
    requires Orderly(Records(lines)) && BetweenInstants(lines, from)
    requires cut - from == BeforeTheOpenInstant(grown)
    ensures BetweenInstants(lines, cut)
  {
    var last := OpenInstantCases(grown);
    if cut != from {
      if Datable(grown) {
        HeldBackMoves(lines, from, grown, cut, last);
      } else {
        NothingDatable(lines, from, grown, cut);
      }
    }
  }

  lemma NothingDatable(lines: seq<FinishedLine>, from: nat, grown: seq<FinishedLine>, cut: nat)
    requires from <= cut == |lines| && grown == lines[from..]
    requires BetweenInstants(lines, from) && !Datable(grown)
    ensures BetweenInstants(lines, cut)
  {
    SplitRecords(lines, from);
    assert lines[..|lines|] == lines;
  }

  lemma HeldBackMoves(lines: seq<FinishedLine>, from: nat, grown: seq<FinishedLine>, cut: nat, last: nat)
    requires from < cut <= |lines| && grown == lines[from..]
    requires Orderly(Records(lines))
    requires cut - from == ThroughOther(grown, last) && EndsAt(grown, last)
    ensures BetweenInstants(lines, cut)
  {
    var count, front, piece, rest := cut - from, lines[..cut], lines[from..cut], lines[cut..];
    GrownPieces(lines, from, cut, grown, count, piece, rest);
    HeldBackStamps(grown, last, count, piece, rest);
    EndsStand(lines, from, last);
    SplitRecords(lines, cut);
    FrontEnds(lines, from, cut);
    CutBetween(Records(front), Records(rest), last);
  }

  lemma HeldBackStamps(
    grown: seq<FinishedLine>, last: nat, count: nat, piece: seq<FinishedLine>, rest: seq<FinishedLine>
  )
    requires 0 < count == ThroughOther(grown, last) && piece == grown[..count] && rest == grown[count..]
    ensures forall i :: 0 <= i < |Records(rest)| ==> Records(rest)[i].ts == last
    ensures Records(piece) != [] && Records(piece)[|Records(piece)| - 1].ts != last
  {
    ThroughOtherIs(grown, last);
  }

  lemma EndsStand(lines: seq<FinishedLine>, from: nat, last: nat)
    requires from <= |lines| && EndsAt(lines[from..], last)
    ensures EndsAt(lines, last)
  {
    SplitRecords(lines, from);
  }

  lemma FrontEnds(lines: seq<FinishedLine>, from: nat, cut: nat)
    requires from <= cut <= |lines| && Records(lines[from..cut]) != []
    ensures var front, piece := Records(lines[..cut]), Records(lines[from..cut]);
      front != [] && front[|front| - 1] == piece[|piece| - 1]
  {
    SplitRecords(lines[..cut], from);
    assert lines[..cut][..from] == lines[..from] && lines[..cut][from..] == lines[from..cut];
  }

  lemma CutBetween(front: seq<Envelope>, later: seq<Envelope>, last: nat)
    requires Orderly(front + later) && front != []
    requires forall i :: 0 <= i < |later| ==> later[i].ts == last
    requires front[|front| - 1].ts != last && (front + later)[|front + later| - 1].ts == last
    ensures later != []
    ensures forall i, j :: 0 <= i < |front| && 0 <= j < |later| ==> front[i].ts < later[j].ts
  {
    var all, f := front + later, |front| - 1;
    assert all[f] == front[f];
    forall i, j | 0 <= i < |front| && 0 <= j < |later| ensures front[i].ts < later[j].ts {
      assert all[i] == front[i] && all[|front|] == later[0];
    }
  }

  // ---- a store that was ended --------------------------------------------

  /** Whether everything past a cut is stamped later than everything before it. */
  ghost predicate Settled(lines: seq<FinishedLine>, cut: nat)
    requires cut <= |lines|
  {
    var front, later := Records(lines[..cut]), Records(lines[cut..]);
    forall i, j :: 0 <= i < |front| && 0 <= j < |later| ==> front[i].ts < later[j].ts
  }

  /** Whether a cut is where the store was once ended, but for lines that hold no record. */
  ghost predicate EndedAt(lines: seq<FinishedLine>, cut: nat, end: nat) {
    end <= cut <= |lines| && Records(lines[end..cut]) == []
  }

  /** Whether a cut falls between two instants, or where the store was once ended. */
  ghost predicate Closed(lines: seq<FinishedLine>, cut: nat, ends: set<nat>)
    requires cut <= |lines|
  {
    BetweenInstants(lines, cut) || exists end :: end in ends && EndedAt(lines, cut, end)
  }

  ghost predicate AllClosed(lines: seq<FinishedLine>, cuts: seq<nat>, ends: set<nat>)
    requires ValidCuts(cuts, |lines|)
  {
    forall i :: 0 <= i < |cuts| ==> Closed(lines, cuts[i], ends)
  }

  /** Whether what arrived after each end is stamped later than everything before it. */
  ghost predicate AllSettled(lines: seq<FinishedLine>, ends: set<nat>) {
    forall end :: end in ends ==> end <= |lines| && Settled(lines, end)
  }

  /** A cut where the store was ended splits its records as the end does. */
  lemma EndSplits(lines: seq<FinishedLine>, cut: nat, end: nat)
    requires EndedAt(lines, cut, end)
    ensures Records(lines[..cut]) == Records(lines[..end]) && Records(lines[cut..]) == Records(lines[end..])
  {
    var piece := lines[end..cut];
    assert lines[..cut] == lines[..end] + piece;
    RecordsJoin(lines[..end], piece);
    assert lines[end..] == piece + lines[cut..];
    RecordsJoin(piece, lines[cut..]);
  }

  lemma ClosedIsInFront(lines: seq<FinishedLine>, cut: nat, ends: set<nat>)
    requires cut <= |lines| && Orderly(Records(lines)) && AllSettled(lines, ends) && Closed(lines, cut, ends)
    ensures InFrontAt(lines, cut)
  {
    if BetweenInstants(lines, cut) {
      BetweenIsInFront(lines, cut);
    } else {
      var end :| end in ends && EndedAt(lines, cut, end);
      EndSplits(lines, cut, end);
      SplitRecords(lines, end);
      StampedBeforeIsInFront(Records(lines[..end]), Records(lines[end..]));
    }
  }

  lemma ClosedStays(lines: seq<FinishedLine>, longer: seq<FinishedLine>, cut: nat, ends: set<nat>, more: set<nat>)
    requires lines <= longer && cut <= |lines| && Orderly(Records(longer)) && ends <= more
    requires Closed(lines, cut, ends)
    ensures Closed(longer, cut, more)
  {
    if BetweenInstants(lines, cut) {
      BetweenStays(lines, longer, cut);
    } else {
      var end :| end in ends && EndedAt(lines, cut, end);
      assert longer[end..cut] == lines[end..cut];
      assert EndedAt(longer, cut, end);
    }
  }

  lemma CutsStayClosed(
    lines: seq<FinishedLine>, longer: seq<FinishedLine>, cuts: seq<nat>, ends: set<nat>, more: set<nat>
  )
    requires lines <= longer && ValidCuts(cuts, |lines|) && Orderly(Records(longer)) && ends <= more
    requires AllClosed(lines, cuts, ends)
    ensures ValidCuts(cuts, |longer|) && AllClosed(longer, cuts, more)
  {
    forall i | 0 <= i < |cuts| ensures Closed(longer, cuts[i], more) {
      ClosedStays(lines, longer, cuts[i], ends, more);
    }
  }

  lemma NothingBefore(lines: seq<FinishedLine>)
    ensures BetweenInstants(lines, 0)
  {
    assert lines[..0] == [];
  }

  /** The cut a refresh makes past a closed one is closed. */
  lemma NextIsClosed(lines: seq<FinishedLine>, from: nat, ends: set<nat>, cut: nat)
    requires from <= |lines| && Orderly(Records(lines)) && AllSettled(lines, ends) && Closed(lines, from, ends)
    requires cut == from + BeforeTheOpenInstant(lines[from..])
    ensures cut <= |lines| && Closed(lines, cut, ends)
  {
    if BetweenInstants(lines, from) {
      HeldBackIsBetween(lines, from, lines[from..], cut);
    } else {
      var end := NothingSince(lines, from, ends);
      NothingPastTheEnd(lines, from, end, cut);
    }
  }

  /** Once something has arrived past an end, a cut there falls between two instants. */
  lemma NothingSince(lines: seq<FinishedLine>, from: nat, ends: set<nat>) returns (end: nat)
    requires from <= |lines| && AllSettled(lines, ends) && Closed(lines, from, ends) && !BetweenInstants(lines, from)
    ensures end in ends && EndedAt(lines, from, end) && Records(lines[from..]) == []
  {
    end :| end in ends && EndedAt(lines, from, end);
    EndSplits(lines, from, end);
    assert Settled(lines, end);
  }

  lemma NothingPastTheEnd(lines: seq<FinishedLine>, from: nat, end: nat, cut: nat)
    requires EndedAt(lines, from, end) && Records(lines[from..]) == []
    requires cut == from + BeforeTheOpenInstant(lines[from..])
    ensures EndedAt(lines, cut, end)
  {
    var _ := OpenInstantCases(lines[from..]);
    assert lines[end..cut] == lines[end..from] + lines[from..];
    RecordsJoin(lines[end..from], lines[from..]);
  }

  /** And so is every cut of a reader that refreshes past closed ones. */
  lemma NextCutsAreClosed(lines: seq<FinishedLine>, cuts: seq<nat>, ends: set<nat>, longer: seq<nat>)
    requires ValidCuts(cuts, |lines|) && Orderly(Records(lines)) && AllSettled(lines, ends) &&
      AllClosed(lines, cuts, ends)
    requires longer == cuts + [NextCut(lines, cuts)]
    ensures ValidCuts(longer, |lines|) && AllClosed(lines, longer, ends)
  {
    var from := LastCut(cuts);
    NothingBefore(lines);
    NextIsClosed(lines, from, ends, NextCut(lines, cuts));
    OneMoreClosed(lines, cuts, NextCut(lines, cuts), ends, longer);
  }

  lemma OneMoreClosed(lines: seq<FinishedLine>, cuts: seq<nat>, cut: nat, ends: set<nat>, longer: seq<nat>)
    requires ValidCuts(cuts, |lines|) && LastCut(cuts) <= cut <= |lines| && longer == cuts + [cut]
    requires AllClosed(lines, cuts, ends) && Closed(lines, cut, ends)
    ensures ValidCuts(longer, |lines|) && AllClosed(lines, longer, ends)
  {
    CutOnce(lines, cuts, cut);
    forall i | 0 <= i < |longer| ensures Closed(lines, longer[i], ends) {
      if i < |cuts| {
        assert longer[i] == cuts[i];
      }
    }
  }

  lemma SettledBefore(lines: seq<FinishedLine>, longer: seq<FinishedLine>, end: nat)
    requires lines <= longer && end <= |lines| && Settled(longer, end)
    ensures Settled(lines, end)
  {
    var front, back, grown := lines[..end], lines[end..], longer[|lines|..];
    LongerPieces(lines, longer, end, front, back, grown);
    RecordsJoin(back, grown);
    var later, more := Records(back), Records(back + grown);
    assert forall j :: 0 <= j < |later| ==> more[j] == later[j];
  }

  lemma OrderlyBefore(lines: seq<FinishedLine>, longer: seq<FinishedLine>)
    requires lines <= longer && Orderly(Records(longer))
    ensures Orderly(Records(lines))
  {
    var grown := longer[|lines|..];
    assert longer == lines + grown;
    RecordsJoin(lines, grown);
    var before, all := Records(lines), Records(longer);
    assert forall i :: 0 <= i < |before| ==> all[i] == before[i];
  }

  /** Where every cut is closed, folding piece by piece is folding the whole store. */
  lemma ClosedCutsLeaveNoTrace(lines: seq<FinishedLine>, cuts: seq<nat>, ends: set<nat>)
    requires ValidCuts(cuts, |lines|) && Orderly(Records(lines)) && AllSettled(lines, ends) &&
      AllClosed(lines, cuts, ends)
    ensures OrderOver(lines, cuts) == Merged(Records(lines))
  {
    forall i | 0 <= i < |cuts| ensures InFrontAt(lines, cuts[i]) {
      ClosedIsInFront(lines, cuts[i], ends);
    }
    CutsLeaveNoTrace(lines, cuts);
  }
}
