/**
 A long-lived view of a run (src/views.rs, `RunView::open` and `RunView::refresh`): the merged
 store and its fold, brought up to date by reading only what was appended where the append
 receipts and the marker together say that is enough, and read again whole where they do not.

 `Refreshed` is what one refresh leaves, `RunView.Refresh` the method that does it. The
 theorem is over a journal among writers, crashes and editors, as `AppendStamp` has them.
 */
module RunViews {
  import AppendStamp
  import opened ByteLines
  import opened Coverage
  import opened Folding
  import opened Journal
  import opened MergeExact
  import opened Merging
  import opened MergeSplit
  import opened Wrappers

  /** The records of a journal's finished lines, in file order. */
  function FinishedIn(parse: Parse<Envelope>, bytes: seq<Byte>): seq<Envelope> {
    Parsed(parse, Lines(bytes))
  }

  /** What a reader of the whole journal takes: a last line still unfinished too, where it reads. */
  function RecordsIn(parse: Parse<Envelope>, bytes: seq<Byte>): seq<Envelope> {
    FinishedIn(parse, bytes) +
    var rest := bytes[Terminated(bytes)..];
    if rest != [] && parse(rest).Some? then [parse(rest).value] else []
  }

  /** Past whole lines a reader of the whole journal takes what is there of the next, where it reads as it stands. */
  lemma UnfinishedIsTaken(parse: Parse<Envelope>, whole: seq<Byte>, rest: seq<Byte>)
    requires WholeLines(whole) && rest != [] && NEWLINE !in rest
    ensures RecordsIn(parse, whole + rest) ==
      FinishedIn(parse, whole) + match parse(rest) case Some(event) => [event] case None => []
  {
    NoLineEnds(rest);
    LinesJoin(whole, rest, whole + rest);
    LinesJoin(whole, [], whole);
    assert Lines(rest) == [] && Terminated(rest) == 0;
    assert (whole + rest)[|whole|..] == rest;
  }

  lemma {:induction false} NoLineEnds(bytes: seq<Byte>)
    requires NEWLINE !in bytes
    ensures LineEnd(bytes) == 0
  {
    if bytes != [] {
      NoLineEnds(bytes[1..]);
    }
  }

  /** What of the run lies outside its journal, as one refresh finds it. */
  datatype Outside<!S, U> = Outside(
    changed: bool,           // the launch record or the result, since last read
    answer: S,               // what the checkpoint answers of the journal now
    upstreams: S -> U,       // the stamps of the runs a state's edges reach
    resolved: bool           // whether those held still while the view was opened
  )

  datatype Cursor<U> = Cursor(
    stamp: AppendStamp.Stamp,
    receipt: Option<AppendStamp.Receipt>,
    coverage: Coverage,
    upstreams: Option<U>
  )

  datatype View<S, U> = View(events: seq<Envelope>, state: S, cursor: Cursor<U>)

  datatype Outcome = Unchanged | Appended(first: nat) | Reread

  const NOTHING_COVERED := Coverage(0, 0, None, map[], 0)

  function AbsorbedAll(coverage: Coverage, events: seq<Envelope>): Coverage {
    if events == [] then coverage
    else Absorbs(AbsorbedAll(coverage, events[..|events| - 1]), Some(events[|events| - 1]), 0)
  }

  // ---- opening and refreshing --------------------------------------------

  /** The run read whole. */
  ghost function Opened<S, U>(parse: Parse<Envelope>, world: AppendStamp.World, outside: Outside<S, U>): View<S, U> {
    var events := Merged(RecordsIn(parse, world.content));
    View(events, outside.answer,
         Cursor(AppendStamp.StampOf(world), AppendStamp.ReadIn(world),
                AbsorbedAll(NOTHING_COVERED, events).(bytes := |world.content|),
                if outside.resolved then Some(outside.upstreams(outside.answer)) else None))
  }

  /** Whether the receipts vouch for what is held, and something was appended to it. */
  predicate Grew<U>(cursor: Cursor<U>, world: AppendStamp.World) {
    && cursor.receipt.Some? && AppendStamp.ReadIn(world).Some?
    && AppendStamp.Continues(AppendStamp.ReadIn(world).value, cursor.receipt.value)
    && cursor.coverage.bytes < |world.content|
  }

  /** Whether what was appended is whole lines, and the marker puts everything held ahead of every record of it. */
  predicate Follows(coverage: Coverage, parse: Parse<Envelope>, appended: seq<Byte>) {
    && Terminated(appended) == |appended|
    && forall i :: 0 <= i < |FinishedIn(parse, appended)| ==> IsInFrontOf(coverage, FinishedIn(parse, appended)[i])
  }

  /** What one refresh leaves of a view, and what it says it did. */
  ghost function Refreshed<S, A, U>(
    fold: Fold<S, A>, parse: Parse<Envelope>, view: View<S, U>, world: AppendStamp.World, outside: Outside<S, U>
  ): (View<S, U>, Outcome) {
    var cursor := view.cursor;
    var reread := (Opened(parse, world, outside), Outcome.Reread);
    if cursor.upstreams != Some(outside.upstreams(view.state)) || outside.changed then reread
    else if cursor.stamp == AppendStamp.StampOf(world) then (view, Unchanged)
    else if !Grew(cursor, world) || !Follows(cursor.coverage, parse, world.content[cursor.coverage.bytes..]) then reread
    else
      var grown := Merged(FinishedIn(parse, world.content[cursor.coverage.bytes..]));
      var state := StateOver(fold, view.state, grown);
      if outside.upstreams(state) != outside.upstreams(view.state) then reread
      else
        (View(view.events + grown, state,
              cursor.(stamp := AppendStamp.StampOf(world), receipt := AppendStamp.ReadIn(world),
                      coverage := AbsorbedAll(cursor.coverage, grown).(bytes := |world.content|))),
         Appended(|view.events|))
  }

  class RunView<S, A, U(==)> {
    const fold: Fold<S, A>
    const parse: Parse<Envelope>
    var events: seq<Envelope>
    var state: S
    var cursor: Cursor<U>

    ghost function Now(): View<S, U>
      reads this
    {
      View(events, state, cursor)
    }

    constructor Open(fold: Fold<S, A>, parse: Parse<Envelope>, world: AppendStamp.World, outside: Outside<S, U>)
      ensures this.fold == fold && this.parse == parse && Now() == Opened(parse, world, outside)
    {
      var merged := MergeOrder(RecordsIn(parse, world.content));
      var coverage := AbsorbAll(NOTHING_COVERED, merged);
      this.fold, this.parse, this.events, this.state := fold, parse, merged, outside.answer;
      this.cursor := Cursor(AppendStamp.StampOf(world), AppendStamp.ReadIn(world), coverage.(bytes := |world.content|),
                            if outside.resolved then Some(outside.upstreams(outside.answer)) else None);
    }

    method Read(world: AppendStamp.World, outside: Outside<S, U>)
      modifies this
      ensures Now() == Opened(parse, world, outside)
    {
      events := MergeOrder(RecordsIn(parse, world.content));
      var coverage := AbsorbAll(NOTHING_COVERED, events);
      state := outside.answer;
      cursor := Cursor(AppendStamp.StampOf(world), AppendStamp.ReadIn(world), coverage.(bytes := |world.content|),
                       if outside.resolved then Some(outside.upstreams(outside.answer)) else None);
    }

    /** Bring the view up to date, its events kept as a prefix where only an append has to be read. */
    method Refresh(world: AppendStamp.World, outside: Outside<S, U>) returns (outcome: Outcome)
      modifies this
      ensures (Now(), outcome) == Refreshed(fold, parse, old(Now()), world, outside)
    {
      var upstreams := outside.upstreams(state);
      if cursor.upstreams != Some(upstreams) || outside.changed {
        Read(world, outside);
        return Outcome.Reread;
      }
      if cursor.stamp == AppendStamp.StampOf(world) {
        return Unchanged;
      }
      if !Grew(cursor, world) || !Follows(cursor.coverage, parse, world.content[cursor.coverage.bytes..]) {
        Read(world, outside);
        return Outcome.Reread;
      }
      var grown := MergeOrder(FinishedIn(parse, world.content[cursor.coverage.bytes..]));
      var next := FoldForward(fold, state, grown);
      if outside.upstreams(next) != upstreams {
        Read(world, outside);
        return Outcome.Reread;
      }
      outcome := Appended(|events|);
      var coverage := AbsorbAll(cursor.coverage, grown);
      state := next;
      events := events + grown;
      cursor := cursor.(stamp := AppendStamp.StampOf(world), receipt := AppendStamp.ReadIn(world),
                        coverage := coverage.(bytes := |world.content|));
    }
  }

  method AbsorbAll(coverage: Coverage, events: seq<Envelope>) returns (absorbed: Coverage)
    ensures absorbed == AbsorbedAll(coverage, events)
  {
    absorbed := coverage;
    for i := 0 to |events|
      invariant absorbed == AbsorbedAll(coverage, events[..i])
    {
      assert events[..i + 1][..i] == events[..i];
      absorbed := Absorbs(absorbed, Some(events[i]), 0);
    }
    assert events[..|events|] == events;
  }

  method FoldForward<S, A>(fold: Fold<S, A>, state: S, events: seq<Envelope>) returns (next: S)
    ensures next == StateOver(fold, state, events)
  {
    next := state;
    for i := 0 to |events|
      invariant next == StateOver(fold, state, events[..i])
    {
      assert events[..i + 1][..i] == events[..i];
      next := fold.step(next, events[i]);
    }
    assert events[..|events|] == events;
  }

  // ---- what a view is worth ----------------------------------------------

  /** Whether a view holds the merged store of a journal with this content, and the marks of it. */
  ghost predicate ShowsStore<S, U>(parse: Parse<Envelope>, view: View<S, U>, content: seq<Byte>) {
    && view.events == Merged(RecordsIn(parse, content))
    && Marks(view.cursor.coverage, view.events) && view.cursor.coverage.bytes == |content|
  }

  /** Whether its state is the fold of that journal. */
  ghost predicate ShowsFold<S, A, U>(fold: Fold<S, A>, parse: Parse<Envelope>, view: View<S, U>, content: seq<Byte>) {
    view.state == StateOver(fold, fold.empty, Merged(FinishedIn(parse, content)))
  }

  /** Whether what a view's cursor holds still says of `content` what it said when it was read. */
  ghost predicate Stands<U>(cursor: Cursor<U>, world: AppendStamp.World, content: seq<Byte>) {
    && cursor.stamp.tag in world.seen
    && (cursor.stamp.tag == world.tag ==> content == world.content)
    && (cursor.receipt.Some? ==> WholeLines(content) && AppendStamp.Vouches(world, cursor.receipt.value.epoch, content))
  }

  /** Whether a receipt read now was published past a whole line. */
  ghost predicate PastALine(world: AppendStamp.World) {
    world.receipt.Some? && world.receipt.value.stamp.tag == world.tag ==> WholeLines(world.content)
  }

  /** Whether a step leaves what a writer began from, and publishes only past a whole line, as `write_record` does. */
  ghost predicate Writes(world: AppendStamp.World, step: AppendStamp.Step) {
    && AppendStamp.KeepsBoundary(world, step)
    && (step == AppendStamp.End(true) && world.writer.Some? && world.writer.value.receipt.Some? ==>
          WholeLines(world.content))
  }

  lemma StepStands<U>(
    before: AppendStamp.World, step: AppendStamp.Step, after: AppendStamp.World, cursor: Cursor<U>, content: seq<Byte>
  )
    requires AppendStamp.Honest(before) && PastALine(before) && AppendStamp.Follows(before, step, after)
    requires Writes(before, step) && Stands(cursor, before, content)
    ensures AppendStamp.Honest(after) && PastALine(after) && Stands(cursor, after, content)
  {
    AppendStamp.StepIsHonest(before, step, after);
    if cursor.receipt.Some? {
      AppendStamp.StepVouches(before, step, after, cursor.receipt.value.epoch, content);
    }
  }

  ghost predicate IsRun(worlds: seq<AppendStamp.World>, steps: seq<AppendStamp.Step>) {
    && AppendStamp.IsRun(worlds, steps) && AppendStamp.Honest(worlds[0]) && PastALine(worlds[0])
    && forall n :: 0 <= n < |steps| ==> Writes(worlds[n], steps[n])
  }

  lemma {:induction false} RunStands<U>(
    worlds: seq<AppendStamp.World>, steps: seq<AppendStamp.Step>, i: nat, j: nat, cursor: Cursor<U>, content: seq<Byte>
  )
    requires IsRun(worlds, steps) && i <= j < |worlds|
    requires AppendStamp.Honest(worlds[i]) && PastALine(worlds[i]) && Stands(cursor, worlds[i], content)
    ensures AppendStamp.Honest(worlds[j]) && PastALine(worlds[j]) && Stands(cursor, worlds[j], content)
  {
    if i < j {
      var last := j - 1;
      RunStands(worlds, steps, i, last, cursor, content);
      assert AppendStamp.Follows(worlds[last], steps[last], worlds[last + 1]);
      StepStands(worlds[last], steps[last], worlds[j], cursor, content);
    }
  }

  lemma {:induction false} AbsorbedMarks(coverage: Coverage, held: seq<Envelope>, events: seq<Envelope>)
    requires Marks(coverage, held)
    ensures Marks(AbsorbedAll(coverage, events), held + events)
  {
    if events == [] {
      assert held + [] == held;
    } else {
      var front, last := events[..|events| - 1], events[|events| - 1];
      AbsorbedMarks(coverage, held, front);
      MarksOneMore(AbsorbedAll(coverage, front), held + front, last, 0);
      assert held + events == (held + front) + [last];
    }
  }

  /** Whether the checkpoint answers the whole store's fold. */
  ghost predicate AnswersWhole<S, A, U>(
    fold: Fold<S, A>, parse: Parse<Envelope>, world: AppendStamp.World, outside: Outside<S, U>
  ) {
    outside.answer == StateOver(fold, fold.empty, Merged(FinishedIn(parse, world.content)))
  }

  lemma OpenedShows<S, U>(parse: Parse<Envelope>, world: AppendStamp.World, outside: Outside<S, U>)
    requires AppendStamp.Honest(world) && PastALine(world)
    ensures ShowsStore(parse, Opened(parse, world, outside), world.content)
    ensures Stands(Opened(parse, world, outside).cursor, world, world.content)
  {
    var events := Merged(RecordsIn(parse, world.content));
    AbsorbedMarks(NOTHING_COVERED, [], events);
    assert [] + events == events;
    NowStands(Opened(parse, world, outside).cursor, world);
  }

  /** What is read now stands for what is there now. */
  lemma NowStands<U>(cursor: Cursor<U>, world: AppendStamp.World)
    requires AppendStamp.Honest(world) && PastALine(world)
    requires cursor.stamp == AppendStamp.StampOf(world) && cursor.receipt == AppendStamp.ReadIn(world)
    ensures Stands(cursor, world, world.content)
  {
    assert world.content[..|world.content|] == world.content;
  }

  /** Records all put behind what is held, one at a time, are put behind it together. */
  lemma AllFollow(coverage: Coverage, held: seq<Envelope>, grown: seq<Envelope>)
    requires Marks(coverage, held) && forall i :: 0 <= i < |grown| ==> IsInFrontOf(coverage, grown[i])
    ensures AllInFront(held, grown)
  {
    forall i, j | 0 <= i < |held| && 0 <= j < |grown| ensures InFront(held[i], grown[j]) {
      MarksCompareWithAll(coverage, held, grown[j]);
      assert InFront(held[i], [grown[j]][0]);
    }
  }

  lemma WholeIsFinished(parse: Parse<Envelope>, bytes: seq<Byte>)
    requires WholeLines(bytes)
    ensures RecordsIn(parse, bytes) == FinishedIn(parse, bytes)
  {
    LinesJoin(bytes, [], bytes + []);
    assert bytes + [] == bytes;
  }

  /** A journal that grew by whole lines past whole lines holds the records of both, and no line unfinished. */
  lemma RecordsGrow(parse: Parse<Envelope>, held: seq<Byte>, appended: seq<Byte>, content: seq<Byte>)
    requires WholeLines(held) && content == held + appended && Terminated(appended) == |appended|
    ensures RecordsIn(parse, held) == FinishedIn(parse, held)
    ensures RecordsIn(parse, content) == FinishedIn(parse, content) ==
            FinishedIn(parse, held) + FinishedIn(parse, appended)
  {
    WholeIsFinished(parse, held);
    LinesJoin(held, appended, content);
    ParsedJoins(parse, Lines(held), Lines(appended));
    assert content[|content|..] == [];
  }

  /** What the receipts and the marker together let a refresh append is what the whole store's merge goes on with. */
  lemma AppendedShows<S, A, U>(
    fold: Fold<S, A>, parse: Parse<Envelope>, view: View<S, U>, held: seq<Byte>, appended: seq<Byte>,
    content: seq<Byte>
  )
    requires ShowsStore(parse, view, held) && WholeLines(held) && content == held + appended
    requires Follows(view.cursor.coverage, parse, appended)
    ensures view.events + Merged(FinishedIn(parse, appended)) == Merged(RecordsIn(parse, content))
    ensures ShowsFold(fold, parse, view, held) ==>
              StateOver(fold, view.state, Merged(FinishedIn(parse, appended)))
              == StateOver(fold, fold.empty, Merged(FinishedIn(parse, content)))
  {
    var records, grown := RecordsIn(parse, held), FinishedIn(parse, appended);
    RecordsGrow(parse, held, appended, content);
    AllFollow(view.cursor.coverage, view.events, grown);
    InFrontAsRecorded(records, grown);
    MergeSplits(records, grown);
    StateJoins(fold, fold.empty, Merged(records), Merged(grown));
  }

  lemma InFrontAsRecorded(records: seq<Envelope>, grown: seq<Envelope>)
    requires AllInFront(Merged(records), grown)
    ensures AllInFront(records, grown)
  {
    MergedIsPermutation(records);
    forall i, j | 0 <= i < |records| && 0 <= j < |grown| ensures InFront(records[i], grown[j]) {
      assert records[i] in multiset(Merged(records));
      var k :| 0 <= k < |Merged(records)| && Merged(records)[k] == records[i];
    }
  }

  /** Where receipts say a view's journal grew, it did: the content it was read with is a prefix, of whole lines. */
  lemma GrownIsAppended<U>(cursor: Cursor<U>, world: AppendStamp.World, held: seq<Byte>)
    requires Stands(cursor, world, held) && Grew(cursor, world) && cursor.coverage.bytes == |held|
    ensures WholeLines(held) && world.content == held + world.content[cursor.coverage.bytes..]
  {
    assert held <= world.content;
  }

  /**
   Whatever a refresh does, the view then shows the journal as it is, and stands for it: read
   again, or appended to with its events kept as a prefix, or left as it was.
   */
  lemma RefreshedShows<S, A, U>(
    fold: Fold<S, A>, parse: Parse<Envelope>, view: View<S, U>, held: seq<Byte>, world: AppendStamp.World,
    outside: Outside<S, U>, now: View<S, U>, outcome: Outcome
  )
    requires AppendStamp.Honest(world) && PastALine(world)
    requires ShowsStore(parse, view, held) && Stands(view.cursor, world, held)
    requires (now, outcome) == Refreshed(fold, parse, view, world, outside)
    ensures ShowsStore(parse, now, world.content) && Stands(now.cursor, world, world.content)
    ensures ShowsFold(fold, parse, view, held) && AnswersWhole(fold, parse, world, outside) ==>
              ShowsFold(fold, parse, now, world.content)
    ensures match outcome
            case Unchanged => now == view && world.content == held
            case Appended(first) => first == |view.events| && view.events <= now.events && held <= world.content
            case Reread => now == Opened(parse, world, outside)
  {
    match outcome
    case Unchanged =>
    case Reread => OpenedShows(parse, world, outside);
    case Appended(_) =>
      GrownIsAppended(view.cursor, world, held);
      var appended := world.content[view.cursor.coverage.bytes..];
      AppendedShows(fold, parse, view, held, appended, world.content);
      AbsorbedMarks(view.cursor.coverage, view.events, Merged(FinishedIn(parse, appended)));
      NowStands(now.cursor, world);
  }

  // ---- which way a refresh goes ------------------------------------------

  /**
   Whether the journal's receipt was published over it as it is, by this version, and goes on from
   the one a view was read beside.
   */
  ghost predicate ReceiptsGoOn<U>(cursor: Cursor<U>, world: AppendStamp.World) {
    && cursor.receipt.Some? && world.receipt.Some? && world.receipt.value.version == AppendStamp.VERSION
    && world.receipt.value.stamp == AppendStamp.Stamp(|world.content|, world.tag)
    && world.receipt.value.epoch == cursor.receipt.value.epoch
    && cursor.receipt.value.stamp.len <= |world.content|
  }

  /** Whether what lies outside the journal is as it was for the state a view holds. */
  ghost predicate OutsideStands<S, U>(view: View<S, U>, outside: Outside<S, U>) {
    !outside.changed && view.cursor.upstreams == Some(outside.upstreams(view.state))
  }

  /** Whether what was appended past `held` is whole lines, all merging behind it, and reaches no other run. */
  ghost predicate Appends<S, A, U>(
    fold: Fold<S, A>, parse: Parse<Envelope>, view: View<S, U>, appended: seq<Byte>, outside: Outside<S, U>
  ) {
    var grown := FinishedIn(parse, appended);
    && Terminated(appended) == |appended| && AllInFront(view.events, grown)
    && outside.upstreams(StateOver(fold, view.state, Merged(grown))) == outside.upstreams(view.state)
  }

  lemma FollowsIsAppendable(coverage: Coverage, held: seq<Envelope>, parse: Parse<Envelope>, appended: seq<Byte>)
    requires Marks(coverage, held)
    ensures Follows(coverage, parse, appended) <==>
      Terminated(appended) == |appended| && AllInFront(held, FinishedIn(parse, appended))
  {
    var grown := FinishedIn(parse, appended);
    if forall i :: 0 <= i < |grown| ==> IsInFrontOf(coverage, grown[i]) {
      AllFollow(coverage, held, grown);
    }
    if AllInFront(held, grown) {
      forall i | 0 <= i < |grown| ensures IsInFrontOf(coverage, grown[i]) {
        MarksCompareWithAll(coverage, held, grown[i]);
      }
    }
  }

  /** A refresh leaves a view as it was, appends to it, or reads again, exactly where each is right. */
  lemma RefreshGoesWhere<S, A, U>(
    fold: Fold<S, A>, parse: Parse<Envelope>, view: View<S, U>, held: seq<Byte>, world: AppendStamp.World,
    outside: Outside<S, U>, outcome: Outcome
  )
    requires ShowsStore(parse, view, held) && outcome == Refreshed(fold, parse, view, world, outside).1
    ensures outcome.Unchanged? <==>
      OutsideStands(view, outside) && view.cursor.stamp == AppendStamp.Stamp(|world.content|, world.tag)
    ensures outcome.Appended? <==>
      && OutsideStands(view, outside) && view.cursor.stamp != AppendStamp.Stamp(|world.content|, world.tag)
      && ReceiptsGoOn(view.cursor, world) && |held| < |world.content|
      && Appends(fold, parse, view, world.content[|held|..], outside)
  {
    if |held| < |world.content| {
      FollowsIsAppendable(view.cursor.coverage, view.events, parse, world.content[|held|..]);
    }
  }

  /** A view opened while other runs moved is read again at its next refresh, and one that was not stands. */
  lemma UnsettledIsReadAgain<S, A, U>(
    fold: Fold<S, A>, parse: Parse<Envelope>, world: AppendStamp.World, outside: Outside<S, U>
  )
    ensures Refreshed(fold, parse, Opened(parse, world, outside), world, outside.(changed := false)).1 ==
      if outside.resolved then Unchanged else Reread
  {
  }

  // ---- a view over a whole run -------------------------------------------

  /** One look at a run: which of its worlds it found, and what lay outside the journal then. */
  datatype Look<!S, U> = Look(at: nat, outside: Outside<S, U>)

  /** A view opened at the first look, and refreshed at each one after. */
  ghost predicate IsWatched<S(!new), A(!new), U(!new)>(
    fold: Fold<S, A>, parse: Parse<Envelope>, worlds: seq<AppendStamp.World>, looks: seq<Look<S, U>>,
    views: seq<View<S, U>>
  ) {
    && |looks| == |views| > 0
    && (forall n :: 0 <= n < |looks| ==> looks[n].at < |worlds|)
    && (forall n, next :: 0 <= n && next == n + 1 && next < |looks| ==> looks[n].at <= looks[next].at)
    && views[0] == Opened(parse, worlds[looks[0].at], looks[0].outside)
    && forall n, next :: 0 <= n && next == n + 1 && next < |looks| ==>
         views[next] == Refreshed(fold, parse, views[n], worlds[looks[next].at], looks[next].outside).0
  }

  /**
   Among any appends, failed writes, crashes, edits, truncations and lost receipts, and
   whatever changes outside the journal: after every refresh a view's events are those of a
   fresh opening, and so is its state wherever the checkpoint answers the whole-store fold.
   */
  lemma {:induction false} EveryRefreshIsAFreshOpen<S(!new), A(!new), U(!new)>(
    fold: Fold<S, A>, parse: Parse<Envelope>, worlds: seq<AppendStamp.World>, steps: seq<AppendStamp.Step>,
    looks: seq<Look<S, U>>, views: seq<View<S, U>>, n: nat, world: AppendStamp.World
  )
    requires IsRun(worlds, steps) && IsWatched(fold, parse, worlds, looks, views)
    requires n < |looks| && world == worlds[looks[n].at]
    ensures views[n].events == Opened(parse, world, looks[n].outside).events
    ensures ShowsStore(parse, views[n], world.content) && Stands(views[n].cursor, world, world.content)
    ensures AppendStamp.Honest(world) && PastALine(world)
    ensures (forall m :: 0 <= m <= n ==> AnswersWhole(fold, parse, worlds[looks[m].at], looks[m].outside)) ==>
              ShowsFold(fold, parse, views[n], world.content)
              && views[n].state == Opened(parse, world, looks[n].outside).state
  {
    if n == 0 {
      RunIsRight(worlds, steps, looks[0].at);
      OpenedShows(parse, world, looks[0].outside);
    } else {
      var last := n - 1;
      var before := worlds[looks[last].at];
      EveryRefreshIsAFreshOpen(fold, parse, worlds, steps, looks, views, last, before);
      RunStands(worlds, steps, looks[last].at, looks[n].at, views[last].cursor, before.content);
      var now, outcome := views[n], Refreshed(fold, parse, views[last], world, looks[n].outside).1;
      RefreshedShows(fold, parse, views[last], before.content, world, looks[n].outside, now, outcome);
    }
  }

  lemma {:induction false} RunIsRight(worlds: seq<AppendStamp.World>, steps: seq<AppendStamp.Step>, n: nat)
    requires IsRun(worlds, steps) && n < |worlds|
    ensures AppendStamp.Honest(worlds[n]) && PastALine(worlds[n])
  {
    var world := worlds[0];
    var cursor: Cursor<bool> := Cursor(AppendStamp.StampOf(world), None, NOTHING_COVERED, None);
    RunStands(worlds, steps, 0, n, cursor, world.content);
  }
}
