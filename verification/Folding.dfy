/**
 A batch of lines folded onto a state and a tally (src/checkpoint.rs,
 `fold_in_merge_order` and `Tally`).

 What a state is, and what one record does to it, is a parameter: every result
 here holds of any fold.
 */
module Folding {
  import opened Digest
  import opened Journal
  import opened Merging
  import opened Wrappers

  /** One line a tally holds as lost, placed by its line. */
  datatype LineLost = LineLost(kind: LossKind, line: nat, offset: nat, bytes: nat)

  datatype Tally<A> = Tally(
    aggregate: A,
    events: nat,
    lastKind: Option<string>,
    judged: set<string>,
    unreadable: nat,
    losses: seq<LineLost>
  )

  /** A fold: where a state and an aggregate start, what one record does to each, and how each is written. */
  datatype Fold<!S, !A> = Fold(
    empty: S,
    step: (S, Envelope) -> S,
    nothing: A,
    count: (A, Envelope) -> A,
    writeState: S -> Option<seq<Byte>>,
    writeTally: Tally<A> -> Option<seq<Byte>>,
    spell: nat -> seq<Byte>
  )

  function EmptyTally<S, A>(fold: Fold<S, A>): Tally<A> {
    Tally(fold.nothing, 0, None, {}, 0, [])
  }

  function StateOver<S, A>(fold: Fold<S, A>, state: S, events: seq<Envelope>): S
    decreases |events|
  {
    if events == [] then state
    else fold.step(StateOver(fold, state, events[..|events| - 1]), events[|events| - 1])
  }

  /** `Tally::take`: what counting one record changes. */
  function Take<S, A>(fold: Fold<S, A>, tally: Tally<A>, event: Envelope): Tally<A> {
    tally.(
      aggregate := fold.count(tally.aggregate, event),
      events := tally.events + 1,
      lastKind := Some(event.kind),
      judged := if event.judged.Some? then tally.judged + {event.judged.value} else tally.judged)
  }

  function TallyOver<S, A>(fold: Fold<S, A>, tally: Tally<A>, events: seq<Envelope>): Tally<A>
    decreases |events|
  {
    if events == [] then tally
    else Take(fold, TallyOver(fold, tally, events[..|events| - 1]), events[|events| - 1])
  }

  /** The losses of some lines, the first of them numbered after `first`. */
  function LossesOf(lines: seq<FinishedLine>, first: nat): seq<LineLost> {
    if lines == [] then []
    else
      var last := |lines| - 1;
      LossesOf(lines[..last], first) +
      (match lines[last].lost
       case Some(lost) => [LineLost(lost.kind, first + |lines|, lost.offset, lost.bytes)]
       case None => [])
  }

  /** What meeting some lines does to a tally before any record of theirs is folded. */
  function Met<A>(tally: Tally<A>, lines: seq<FinishedLine>, first: nat): Tally<A> {
    tally.(
      unreadable := tally.unreadable + (|lines| - |Records(lines)|),
      losses := tally.losses + LossesOf(lines, first))
  }

  method Meet<A>(tally: Tally<A>, lines: seq<FinishedLine>, first: nat)
      returns (ordered: seq<Envelope>, met: Tally<A>)
    ensures ordered == Records(lines)
    ensures met == Met(tally, lines, first)
  {
    ordered := [];
    var losses: seq<LineLost> := [];
    for at := 0 to |lines|
      invariant ordered == Records(lines[..at])
      invariant losses == LossesOf(lines[..at], first)
    {
      var line := lines[at];
      assert lines[..at + 1][..at] == lines[..at];
      if line.record.Some? {
        ordered := ordered + [line.record.value];
      }
      if line.lost.Some? {
        losses := losses +
          [LineLost(line.lost.value.kind, first + at + 1, line.lost.value.offset, line.lost.value.bytes)];
      }
    }
    assert lines[..|lines|] == lines;
    met := tally.(unreadable := tally.unreadable + (|lines| - |ordered|), losses := tally.losses + losses);
  }

  lemma OneMoreFolded<S, A>(fold: Fold<S, A>, state: S, tally: Tally<A>, events: seq<Envelope>, at: nat)
    requires at < |events|
    ensures StateOver(fold, state, events[..at + 1]) == fold.step(StateOver(fold, state, events[..at]), events[at])
    ensures TallyOver(fold, tally, events[..at + 1]) == Take(fold, TallyOver(fold, tally, events[..at]), events[at])
  {
    assert events[..at + 1][..at] == events[..at];
  }

  method FoldInMergeOrder<S, A>(fold: Fold<S, A>, state: S, tally: Tally<A>, lines: seq<FinishedLine>, first: nat)
      returns (state': S, tally': Tally<A>)
    ensures state' == StateOver(fold, state, Merged(Records(lines)))
    ensures tally' == TallyOver(fold, Met(tally, lines, first), Merged(Records(lines)))
  {
    var ordered, met := Meet(tally, lines, first);
    var merged := MergeOrder(ordered);
    state', tally' := state, met;
    for at := 0 to |merged|
      invariant state' == StateOver(fold, state, merged[..at])
      invariant tally' == TallyOver(fold, met, merged[..at])
    {
      OneMoreFolded(fold, state, met, merged, at);
      state', tally' := fold.step(state', merged[at]), Take(fold, tally', merged[at]);
    }
    assert merged[..|merged|] == merged;
  }

  // ---- a fold taken in parts ---------------------------------------------

  lemma {:induction false} StateJoins<S, A>(fold: Fold<S, A>, state: S, a: seq<Envelope>, b: seq<Envelope>)
    ensures StateOver(fold, state, a + b) == StateOver(fold, StateOver(fold, state, a), b)
    decreases |b|
  {
    if b == [] {
      assert a + b == a;
    } else {
      assert (a + b)[..|a + b| - 1] == a + b[..|b| - 1];
      StateJoins(fold, state, a, b[..|b| - 1]);
    }
  }

  lemma {:induction false} LossesJoin(a: seq<FinishedLine>, b: seq<FinishedLine>, first: nat, next: nat)
    requires next == first + |a|
    ensures LossesOf(a + b, first) == LossesOf(a, first) + LossesOf(b, next)
    decreases |b|
  {
    if b == [] {
      assert a + b == a;
    } else {
      assert (a + b)[..|a + b| - 1] == a + b[..|b| - 1];
      LossesJoin(a, b[..|b| - 1], first, next);
    }
  }

  /** A fold's tally, said outright: what it counts, and where each loss is. */
  function Counted<S, A>(fold: Fold<S, A>, lines: seq<FinishedLine>, order: seq<Envelope>): Tally<A> {
    Met(TallyOver(fold, EmptyTally(fold), order), lines, 0)
  }

  /** Counting records, and meeting lines, do not disturb each other. */
  lemma {:induction false} TallyJoins<S, A>(
    fold: Fold<S, A>, tally: Tally<A>, lines: seq<FinishedLine>, first: nat, events: seq<Envelope>
  )
    ensures TallyOver(fold, Met(tally, lines, first), events) == Met(TallyOver(fold, tally, events), lines, first)
    decreases |events|
  {
    if events != [] {
      TallyJoins(fold, tally, lines, first, events[..|events| - 1]);
    }
  }

  lemma {:induction false} TallyOverJoins<S, A>(fold: Fold<S, A>, tally: Tally<A>, a: seq<Envelope>, b: seq<Envelope>)
    ensures TallyOver(fold, tally, a + b) == TallyOver(fold, TallyOver(fold, tally, a), b)
    decreases |b|
  {
    if b == [] {
      assert a + b == a;
    } else {
      assert (a + b)[..|a + b| - 1] == a + b[..|b| - 1];
      TallyOverJoins(fold, tally, a, b[..|b| - 1]);
    }
  }

  lemma MetTwice<A>(tally: Tally<A>, a: seq<FinishedLine>, b: seq<FinishedLine>)
    ensures Met(Met(tally, a, 0), b, |a|) == Met(tally, a + b, 0)
  {
    LossesJoin(a, b, 0, |a|);
    RecordsJoin(a, b);
    assert tally.losses + LossesOf(a, 0) + LossesOf(b, |a|) == tally.losses + LossesOf(a + b, 0);
  }

  /** A tally resumed over more lines is the tally of all of them: the batches it was read in leave no trace. */
  lemma TallyResumes<S, A>(
    fold: Fold<S, A>, a: seq<FinishedLine>, b: seq<FinishedLine>, order: seq<Envelope>, more: seq<Envelope>
  )
    ensures TallyOver(fold, Met(Counted(fold, a, order), b, |a|), more) == Counted(fold, a + b, order + more)
  {
    var t := TallyOver(fold, EmptyTally(fold), order);
    TallyJoins(fold, Met(t, a, 0), b, |a|, more);
    TallyJoins(fold, t, a, 0, more);
    TallyOverJoins(fold, EmptyTally(fold), order, more);
    MetTwice(TallyOver(fold, t, more), a, b);
  }

  lemma {:induction false} TallyCounts<S, A>(fold: Fold<S, A>, lines: seq<FinishedLine>, order: seq<Envelope>)
    ensures Counted(fold, lines, order).events == |order|
    ensures Counted(fold, lines, order).lastKind == if order == [] then None else Some(order[|order| - 1].kind)
    ensures forall node :: node in Counted(fold, lines, order).judged <==>
              exists i :: 0 <= i < |order| && order[i].judged == Some(node)
    ensures Counted(fold, lines, order).losses == LossesOf(lines, 0)
    ensures Counted(fold, lines, order).unreadable == |lines| - |Records(lines)|
    decreases |order|
  {
    assert [] + LossesOf(lines, 0) == LossesOf(lines, 0);
    if order != [] {
      var last := |order| - 1;
      TallyCounts(fold, lines, order[..last]);
      assert order == order[..last] + [order[last]];
    }
  }
}
