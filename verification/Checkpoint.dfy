/**
 The fold checkpoint (src/checkpoint.rs): a fold of a prefix of a run's journal
 with the marker that says how much it accounts for, and the reader that resumes
 from it, folding only what arrived since.

 `Cached` is what a reader holds; `Took`, `Rebuilt`, `Refreshed` and `Opened` say
 what each operation makes of it, and the methods of `Projected` compute them.
 What they mean for a run is proved in `CheckpointRuns`.
 */
module Checkpoint {
  import opened Coverage
  import opened Digest
  import opened Folding
  import opened Journal
  import opened Merging
  import opened Wrappers

  const CHECKPOINT_SCHEMA_VERSION: nat := 15
  const REBUILD_WINDOW: nat := 2 * 1024 * 1024
  const U64_MAX: nat := 0xffff_ffff_ffff_ffff

  datatype OpenInstant = HeldBack | Covered

  /** The document beside the journal. */
  datatype Document<S, A> = Document(version: nat, run: string, coverage: Coverage, state: S, tally: Tally<A>)

  /** What a reader holds of a run. */
  datatype Cached<S, A> = Cached(
    covered: S,
    coveredTally: Tally<A>,
    coverage: Coverage,
    state: S,
    tally: Tally<A>,
    readThrough: nat,
    linesThrough: nat,
    claimedPast: map<nat, nat>
  )

  // ---- the journal as it is read -----------------------------------------

  function LinesSize(lines: seq<Line>): nat {
    if lines == [] then 0 else lines[0].bytes + 1 + LinesSize(lines[1..])
  }

  function LengthOf(file: File): nat {
    LinesSize(file.lines) + (if file.tail.Some? then file.tail.value.bytes else 0)
  }

  /** The first line that begins at byte `from` or after it. */
  function LineAt(lines: seq<Line>, from: nat): (at: nat)
    ensures at <= |lines|
    decreases |lines|
  {
    if from == 0 || lines == [] then 0
    else 1 + LineAt(lines[1..], if lines[0].bytes + 1 <= from then from - (lines[0].bytes + 1) else 0)
  }

  /** How many lines from the first end within `len` bytes. */
  function Fitting(lines: seq<Line>, len: nat): (count: nat)
    ensures count <= |lines|
    decreases |lines|
  {
    if lines == [] || lines[0].bytes + 1 > len then 0
    else 1 + Fitting(lines[1..], len - (lines[0].bytes + 1))
  }

  function FinishedLinesFrom(file: File, from: nat): seq<FinishedLine> {
    Finished(file.lines[LineAt(file.lines, from)..], from)
  }

  function FinishedLinesWithin(file: File, from: nat, len: nat): (grown: seq<FinishedLine>)
  {
    var rest := file.lines[LineAt(file.lines, from)..];
    Finished(rest[..Fitting(rest, len)], from)
  }

  // ---- the open instant --------------------------------------------------

  function LastTs(grown: seq<FinishedLine>): Option<nat> {
    if grown == [] then None
    else match grown[|grown| - 1].record
      case Some(event) => Some(event.ts)
      case None => LastTs(grown[..|grown| - 1])
  }

  /** How many lines end with the last record not stamped `last`. */
  function ThroughOther(grown: seq<FinishedLine>, last: nat): (count: nat)
    ensures count <= |grown|
  {
    if grown == [] then 0
    else if grown[|grown| - 1].record.Some? && grown[|grown| - 1].record.value.ts != last then |grown|
    else ThroughOther(grown[..|grown| - 1], last)
  }

  function BeforeTheOpenInstant(grown: seq<FinishedLine>): (count: nat)
    ensures count <= |grown|
  {
    match LastTs(grown)
    case None => |grown|
    case Some(last) => ThroughOther(grown, last)
  }

  function Extent(grown: seq<FinishedLine>, open: OpenInstant): (count: nat)
    ensures count <= |grown|
  {
    match open
    case HeldBack => BeforeTheOpenInstant(grown)
    case Covered => |grown|
  }

  // ---- the seal ----------------------------------------------------------

  function LittleEndian(n: nat, width: nat): seq<Byte> {
    if width == 0 then [] else [n % 256] + LittleEndian(n / 256, width - 1)
  }

  function Least(keys: set<nat>): (least: nat)
    requires keys != {}
    ensures least in keys && forall k :: k in keys ==> least <= k
  {
    assert exists least: nat :: least in keys && forall k :: k in keys ==> least <= k by {
      var k :| k in keys;
      LeastIs(keys, k);
    }
    var least: nat :| least in keys && forall k :: k in keys ==> least <= k;
    least
  }

  lemma {:induction false} LeastIs(keys: set<nat>, k: nat)
    requires k in keys
    ensures exists least: nat :: least in keys && forall j :: j in keys ==> least <= j
    decreases k
  {
    if j :| j in keys && j < k {
      LeastIs(keys, j);
    } else {
      assert k in keys && forall j :: j in keys ==> k <= j;
    }
  }

  function StreamBytes(streams: map<nat, nat>, keys: set<nat>, spell: nat -> seq<Byte>): seq<Byte>
    requires keys <= streams.Keys
    decreases |keys|
  {
    if keys == {} then []
    else
      var stream := Least(keys);
      spell(stream) + LittleEndian(streams[stream], 8) + StreamBytes(streams, keys - {stream}, spell)
  }

  /** The bytes a marker's own claims are sealed as. */
  function ClaimBytes(coverage: Coverage, spell: nat -> seq<Byte>): seq<Byte> {
    LittleEndian(coverage.bytes, 8) + LittleEndian(coverage.records, 8) +
    (match coverage.at case Some(at) => spell(at.ts) + spell(at.stream) case None => []) +
    StreamBytes(coverage.streams, coverage.streams.Keys, spell)
  }

  /** `sealed_with`: a digest over the marker's claims, the written state and the written tally, in that order. */
  function SealedWith<S, A>(fold: Fold<S, A>, coverage: Coverage, state: S, tally: Tally<A>): nat {
    var sealed := Digested(NOTHING_DIGESTED, ClaimBytes(coverage, fold.spell));
    match (fold.writeState(state), fold.writeTally(tally))
    case (Some(state), Some(tally)) => Digested(Digested(sealed, state), tally)
    case _ => (sealed + 1) % MODULUS
  }

  function CorroboratedBy<S, A>(fold: Fold<S, A>, document: Document<S, A>, file: File): bool {
    LengthOf(file) >= document.coverage.bytes
    && SealedWith(fold, document.coverage, document.state, document.tally) == document.coverage.digest
  }

  /** Whether a run's document can be resumed from: this version, this run, corroborated. */
  function Usable<S, A>(fold: Fold<S, A>, run: string, document: Option<Document<S, A>>, file: File): bool {
    document.Some? && document.value.version == CHECKPOINT_SCHEMA_VERSION && document.value.run == run
    && CorroboratedBy(fold, document.value, file)
  }

  // ---- what each operation makes of what is held -------------------------

  function Absorbing(coverage: Coverage, lines: seq<FinishedLine>): Coverage {
    if lines == [] then coverage else Absorbed(Absorbing(coverage, lines[..|lines| - 1]), lines[|lines| - 1])
  }

  function Claimed(events: seq<Envelope>): map<nat, nat> {
    if events == [] then map[]
    else Raised(Claimed(events[..|events| - 1]), events[|events| - 1].stream, events[|events| - 1].number)
  }

  function Empty<S, A>(fold: Fold<S, A>): Cached<S, A> {
    Cached(fold.empty, EmptyTally(fold), Coverage(0, 0, None, map[], NOTHING_DIGESTED),
           fold.empty, EmptyTally(fold), 0, 0, map[])
  }

  function Resumed<S, A>(document: Document<S, A>): Cached<S, A> {
    Cached(document.state, document.tally, document.coverage, document.state, document.tally,
           document.coverage.bytes, document.coverage.records, map[])
  }

  function DocumentOf<S, A>(run: string, cached: Cached<S, A>): Document<S, A> {
    Document(CHECKPOINT_SCHEMA_VERSION, run, cached.coverage, cached.covered, cached.coveredTally)
  }

  /** What the covered half is once `lines` are folded onto it and sealed. */
  ghost function Covers<S, A>(fold: Fold<S, A>, cached: Cached<S, A>, lines: seq<FinishedLine>): Cached<S, A> {
    var order := Merged(Records(lines));
    var state := StateOver(fold, cached.covered, order);
    var tally := TallyOver(fold, Met(cached.coveredTally, lines, cached.coverage.records), order);
    var coverage := Absorbing(cached.coverage, lines);
    cached.(
      covered := state,
      coveredTally := tally,
      coverage := if lines == [] then coverage else coverage.(digest := SealedWith(fold, coverage, state, tally)))
  }

  /** What the whole is once the open instant's lines are folded onto a copy of the covered half. */
  ghost function Opens<S, A>(fold: Fold<S, A>, cached: Cached<S, A>, ahead: seq<FinishedLine>): Cached<S, A> {
    var order := Merged(Records(ahead));
    cached.(
      state := StateOver(fold, cached.covered, order),
      tally := TallyOver(fold, Met(cached.coveredTally, ahead, cached.coverage.records), order),
      readThrough := cached.coverage.bytes + SizeOf(ahead),
      linesThrough := cached.coverage.records + |ahead|,
      claimedPast := Claimed(Records(ahead)))
  }

  /** `take_with`. */
  ghost function Took<S, A>(
    fold: Fold<S, A>, cached: Cached<S, A>, grown: seq<FinishedLine>, open: OpenInstant
  ): Cached<S, A> {
    var accountable := Extent(grown, open);
    Opens(fold, Covers(fold, cached, grown[..accountable]), grown[accountable..])
  }

  lemma {:induction false} AbsorbingAdds(coverage: Coverage, lines: seq<FinishedLine>)
    ensures Absorbing(coverage, lines).bytes == coverage.bytes + SizeOf(lines)
    ensures Absorbing(coverage, lines).records == coverage.records + |lines|
    decreases |lines|
  {
    if lines != [] {
      AbsorbingAdds(coverage, lines[..|lines| - 1]);
    }
  }

  lemma {:induction false} SizeGrows(lines: seq<FinishedLine>)
    requires lines != []
    ensures SizeOf(lines) > 0
  {
  }

  lemma CoversAdds<S, A>(fold: Fold<S, A>, cached: Cached<S, A>, lines: seq<FinishedLine>)
    ensures Covers(fold, cached, lines).coverage.bytes == cached.coverage.bytes + SizeOf(lines)
    ensures Covers(fold, cached, lines).coverage.records == cached.coverage.records + |lines|
  {
    AbsorbingAdds(cached.coverage, lines);
  }

  lemma TookCovers<S, A>(fold: Fold<S, A>, cached: Cached<S, A>, grown: seq<FinishedLine>)
    ensures Took(fold, cached, grown, Covered) == Opens(fold, Covers(fold, cached, grown), [])
  {
    assert grown[..|grown|] == grown && grown[|grown|..] == [];
  }

  lemma TookAll<S, A>(fold: Fold<S, A>, cached: Cached<S, A>, grown: seq<FinishedLine>)
    ensures Took(fold, cached, grown, Covered).coverage.bytes == cached.coverage.bytes + SizeOf(grown)
    ensures Took(fold, cached, grown, Covered).coverage.records == cached.coverage.records + |grown|
    ensures grown != [] ==> SizeOf(grown) > 0
  {
    TookCovers(fold, cached, grown);
    CoversAdds(fold, cached, grown);
    if grown != [] {
      SizeGrows(grown);
    }
  }

  function Remaining(file: File, from: nat): nat {
    if LengthOf(file) > from then LengthOf(file) - from else 0
  }

  function Doubled(window: nat): nat {
    if window * 2 > U64_MAX then U64_MAX else window * 2
  }

  /** `rebuild_in`: window after window is covered, until what is left fits one. */
  ghost function Rebuilt<S, A>(fold: Fold<S, A>, cached: Cached<S, A>, file: File, window: nat): Cached<S, A>
    requires window >= 1 && LengthOf(file) <= U64_MAX
    decreases Remaining(file, cached.coverage.bytes), U64_MAX - window
  {
    if window >= Remaining(file, cached.coverage.bytes) then cached
    else
      var grown := FinishedLinesWithin(file, cached.coverage.bytes, window);
      if grown == [] then Rebuilt(fold, cached, file, Doubled(window))
      else
        TookAll(fold, cached, grown);
        Rebuilt(fold, Took(fold, cached, grown, Covered), file, window)
  }

  /** `refresh`, and what it reads from where it starts. */
  ghost function Standing<S, A>(fold: Fold<S, A>, cached: Cached<S, A>, file: File): Cached<S, A>
    requires LengthOf(file) <= U64_MAX
  {
    if LengthOf(file) < cached.coverage.bytes then Rebuilt(fold, Empty(fold), file, REBUILD_WINDOW) else cached
  }

  ghost function Refreshed<S, A>(fold: Fold<S, A>, cached: Cached<S, A>, file: File): Cached<S, A>
    requires LengthOf(file) <= U64_MAX
  {
    var from := Standing(fold, cached, file);
    Took(fold, from, FinishedLinesFrom(file, from.coverage.bytes), HeldBack)
  }

  /** Whether a refresh moves the marker past where it stands: it accounts for lines no document says it did. */
  ghost predicate MovedOn<S, A>(fold: Fold<S, A>, cached: Cached<S, A>, file: File)
    requires LengthOf(file) <= U64_MAX
  {
    Refreshed(fold, cached, file).coverage.records > Standing(fold, cached, file).coverage.records
  }

  /** How many lines a refresh reads: the ones past where it starts, or all of them of a journal cut back. */
  ghost function LinesRead<S, A>(fold: Fold<S, A>, cached: Cached<S, A>, file: File): int
    requires LengthOf(file) <= U64_MAX
  {
    Refreshed(fold, cached, file).linesThrough - if LengthOf(file) < cached.coverage.bytes then 0
      else cached.coverage.records
  }

  lemma TookAdds<S, A>(fold: Fold<S, A>, cached: Cached<S, A>, grown: seq<FinishedLine>, open: OpenInstant)
    ensures Took(fold, cached, grown, open).coverage.records == cached.coverage.records + Extent(grown, open)
    ensures Took(fold, cached, grown, open).linesThrough == cached.coverage.records + |grown|
  {
    CoversAdds(fold, cached, grown[..Extent(grown, open)]);
  }

  ghost function Starting<S, A>(
    fold: Fold<S, A>, run: string, document: Option<Document<S, A>>, file: File
  ): Cached<S, A>
    requires LengthOf(file) <= U64_MAX
  {
    var from := if Usable(fold, run, document, file) then Resumed(document.value) else Empty(fold);
    if from.coverage.bytes == 0 then Rebuilt(fold, from, file, REBUILD_WINDOW) else from
  }

  /** `open_with`. */
  ghost function Opened<S, A>(fold: Fold<S, A>, run: string, document: Option<Document<S, A>>, file: File): Cached<S, A>
    requires LengthOf(file) <= U64_MAX
  {
    Refreshed(fold, Starting(fold, run, document, file), file)
  }

  /** The greater of two claims, where there is one. */
  function ClaimOf<S, A>(cached: Cached<S, A>, stream: nat): Option<nat> {
    var within := if stream in cached.coverage.streams then cached.coverage.streams[stream] else 0;
    var past := if stream in cached.claimedPast then cached.claimedPast[stream] else 0;
    if stream in cached.coverage.streams || stream in cached.claimedPast
    then Some(if past > within then past else within) else None
  }

  // ---- the reader --------------------------------------------------------

  /** A run's directory: its journal, and the document beside it, which a reader may not be able to write. */
  class RunRoot<S, A> {
    const run: string
    var journal: File
    var document: Option<Document<S, A>>
    var writable: bool

    constructor (run: string, journal: File, document: Option<Document<S, A>>, writable: bool)
      ensures this.run == run && this.journal == journal && this.document == document && this.writable == writable
    {
      this.run, this.journal, this.document, this.writable := run, journal, document, writable;
    }
  }

  class Projected<S, A> {
    const fold: Fold<S, A>
    const persist: bool
    var covered: S
    var coveredTally: Tally<A>
    var coverage: Coverage
    var state: S
    var tally: Tally<A>
    var readThrough: nat
    var linesThrough: nat
    var claimedPast: map<nat, nat>
    var took: nat

    ghost function View(): Cached<S, A>
      reads this
    {
      Cached(covered, coveredTally, coverage, state, tally, readThrough, linesThrough, claimedPast)
    }

    /** A reader standing where `cached` says, nothing read yet. */
    constructor (fold: Fold<S, A>, persist: bool, cached: Cached<S, A>)
      ensures this.fold == fold && this.persist == persist && View() == cached && took == 0
    {
      this.fold, this.persist, this.took := fold, persist, 0;
      this.covered, this.coveredTally, this.coverage := cached.covered, cached.coveredTally, cached.coverage;
      this.state, this.tally := cached.state, cached.tally;
      this.readThrough, this.linesThrough := cached.readThrough, cached.linesThrough;
      this.claimedPast := cached.claimedPast;
    }

    /** Account for `lines`, one at a time. */
    method Absorb(lines: seq<FinishedLine>)
      modifies this`coverage
      ensures coverage == Absorbing(old(coverage), lines)
    {
      for at := 0 to |lines|
        invariant coverage == Absorbing(old(coverage), lines[..at])
      {
        assert lines[..at + 1][..at] == lines[..at];
        coverage := Absorbed(coverage, lines[at]);
      }
      assert lines[..|lines|] == lines;
    }

    method Cover(lines: seq<FinishedLine>)
      modifies this`covered, this`coveredTally, this`coverage
      ensures View() == Covers(fold, old(View()), lines)
    {
      covered, coveredTally := FoldInMergeOrder(fold, covered, coveredTally, lines, coverage.records);
      Absorb(lines);
      if lines != [] {
        coverage := coverage.(digest := SealedWith(fold, coverage, covered, coveredTally));
      }
    }

    method Claim(ahead: seq<FinishedLine>)
      modifies this`claimedPast
      ensures claimedPast == Claimed(Records(ahead))
    {
      claimedPast := map[];
      for at := 0 to |ahead|
        invariant claimedPast == Claimed(Records(ahead[..at]))
      {
        assert ahead[..at + 1][..at] == ahead[..at];
        if ahead[at].record.Some? {
          var event := ahead[at].record.value;
          ghost var events := Records(ahead[..at]);
          assert (events + [event])[..|events|] == events;
          claimedPast := Raised(claimedPast, event.stream, event.number);
        } else {
          assert Records(ahead[..at]) + [] == Records(ahead[..at]);
        }
      }
      assert ahead[..|ahead|] == ahead;
    }

    method Size(lines: seq<FinishedLine>) returns (bytes: nat)
      ensures bytes == SizeOf(lines)
    {
      bytes := 0;
      for at := 0 to |lines|
        invariant bytes == SizeOf(lines[..at])
      {
        assert lines[..at + 1][..at] == lines[..at];
        bytes := bytes + lines[at].bytes;
      }
      assert lines[..|lines|] == lines;
    }

    method Open(ahead: seq<FinishedLine>)
      modifies this`state, this`tally, this`readThrough, this`linesThrough, this`claimedPast
      ensures View() == Opens(fold, old(View()), ahead)
    {
      ghost var before := View();
      var size := Size(ahead);
      Claim(ahead);
      readThrough, linesThrough := coverage.bytes + size, coverage.records + |ahead|;
      assert View() ==
        before.(readThrough := before.coverage.bytes + SizeOf(ahead), linesThrough := before.coverage.records + |ahead|,
                               claimedPast := Claimed(Records(ahead)));
      state, tally := FoldInMergeOrder(fold, covered, coveredTally, ahead, coverage.records);
    }

    /** Take one batch: cover it up to its extent, open the rest, and leave a document where one may be written. */
    method TakeWith(root: RunRoot<S, A>, grown: seq<FinishedLine>, open: OpenInstant, write: bool)
      modifies this, root`document
      ensures View() == Took(fold, old(View()), grown, open) && took == old(took)
      ensures root.document ==
              if Extent(grown, open) > 0 && persist && write && root.writable then Some(DocumentOf(root.run, View()))
              else old(root.document)
    {
      var accountable := Extent(grown, open);
      Cover(grown[..accountable]);
      if accountable > 0 && persist && write && root.writable {
        root.document := Some(Document(CHECKPOINT_SCHEMA_VERSION, root.run, coverage, covered, coveredTally));
      }
      Open(grown[accountable..]);
    }

    method Reset()
      modifies this
      ensures View() == Empty(fold) && took == old(took)
    {
      covered, coveredTally, coverage := fold.empty, EmptyTally(fold), Coverage(0, 0, None, map[], NOTHING_DIGESTED);
      state, tally, readThrough, linesThrough, claimedPast := fold.empty, EmptyTally(fold), 0, 0, map[];
    }

    /** Cover windows until the rest fits one, widening a window no line fits. */
    method RebuildIn(root: RunRoot<S, A>, window: nat) returns (records: nat)
      requires window >= 1 && LengthOf(root.journal) <= U64_MAX
      modifies this, root`document
      ensures View() == Rebuilt(fold, old(View()), root.journal, window) && took == old(took)
      ensures records == coverage.records - old(coverage.records)
      ensures root.document == old(root.document)
    {
      records := 0;
      var wide := window;
      while true
        invariant wide >= 1 && took == old(took) && root.document == old(root.document)
        invariant records == coverage.records - old(coverage.records)
        invariant Rebuilt(fold, View(), root.journal, wide) == Rebuilt(fold, old(View()), root.journal, window)
        decreases Remaining(root.journal, coverage.bytes), U64_MAX - wide
      {
        if wide >= Remaining(root.journal, coverage.bytes) {
          return;
        }
        var grown := FinishedLinesWithin(root.journal, coverage.bytes, wide);
        if grown == [] {
          wide := Doubled(wide);
        } else {
          TookAll(fold, View(), grown);
          records := records + |grown|;
          TakeWith(root, grown, Covered, false);
        }
      }
    }

    /** Start over where the journal was cut back past the marker. */
    method Stand(root: RunRoot<S, A>) returns (rebuilt: nat)
      requires LengthOf(root.journal) <= U64_MAX
      modifies this, root`document
      ensures View() == Standing(fold, old(View()), root.journal) && root.document == old(root.document)
      ensures rebuilt == if LengthOf(root.journal) < old(coverage.bytes) then coverage.records else 0
    {
      rebuilt := 0;
      if LengthOf(root.journal) < coverage.bytes {
        Reset();
        rebuilt := RebuildIn(root, REBUILD_WINDOW);
      }
    }

    /** Fold what the journal has grown by. */
    method Refresh(root: RunRoot<S, A>)
      requires LengthOf(root.journal) <= U64_MAX
      modifies this, root`document
      ensures View() == Refreshed(fold, old(View()), root.journal)
      ensures root.document ==
              if MovedOn(fold, old(View()), root.journal) && persist && root.writable then
                Some(DocumentOf(root.run, View()))
              else old(root.document)
      ensures took == LinesRead(fold, old(View()), root.journal)
    {
      var rebuilt := Stand(root);
      var grown := FinishedLinesFrom(root.journal, coverage.bytes);
      took := rebuilt + |grown|;
      TookAdds(fold, View(), grown, HeldBack);
      TakeWith(root, grown, HeldBack, true);
    }

    /** The greatest `seq` any record read of `stream` claims. */
    method SeqClaimed(stream: nat) returns (claimed: Option<nat>)
      ensures claimed == ClaimOf(View(), stream)
    {
      var within := if stream in coverage.streams then Some(coverage.streams[stream]) else None;
      var past := if stream in claimedPast then Some(claimedPast[stream]) else None;
      claimed := if within.None? || (past.Some? && past.value > within.value) then past else within;
    }

    /** Each stream either half claims, at the greater of the two claims. */
    method StreamsReached() returns (reached: map<nat, nat>)
      ensures reached.Keys == coverage.streams.Keys + claimedPast.Keys
      ensures forall stream :: stream in reached ==> ClaimOf(View(), stream) == Some(reached[stream])
    {
      reached := coverage.streams;
      var left := claimedPast.Keys;
      while left != {}
        invariant left <= claimedPast.Keys
        invariant reached.Keys == coverage.streams.Keys + (claimedPast.Keys - left)
        invariant forall stream :: stream in reached ==>
                    if stream in left then stream in coverage.streams && reached[stream] == coverage.streams[stream]
                    else ClaimOf(View(), stream) == Some(reached[stream])
      {
        var stream :| stream in left;
        left := left - {stream};
        reached := Raised(reached, stream, claimedPast[stream]);
      }
    }
  }

  method Start<S, A>(
    fold: Fold<S, A>, root: RunRoot<S, A>, persist: bool
  ) returns (projected: Projected<S, A>, rebuilt: nat)
    requires LengthOf(root.journal) <= U64_MAX
    modifies root`document
    ensures fresh(projected) && projected.persist == persist && projected.fold == fold
    ensures projected.View() == Starting(fold, root.run, old(root.document), root.journal)
    ensures root.document == old(root.document)
    ensures rebuilt == projected.coverage.records -
      if Usable(fold, root.run, old(root.document), root.journal) then old(root.document).value.coverage.records else 0
  {
    var document := root.document;
    var from := if Usable(fold, root.run, document, root.journal) then Resumed(document.value) else Empty(fold);
    projected := new Projected(fold, persist, from);
    rebuilt := 0;
    if projected.coverage.bytes == 0 {
      rebuilt := projected.RebuildIn(root, REBUILD_WINDOW);
    }
  }

  /** Fold a run, resuming from its document where there is a usable one. */
  method OpenWith<S, A>(fold: Fold<S, A>, root: RunRoot<S, A>, persist: bool) returns (projected: Projected<S, A>)
    requires LengthOf(root.journal) <= U64_MAX
    modifies root`document
    ensures fresh(projected) && projected.persist == persist && projected.fold == fold
    ensures projected.View() == Opened(fold, root.run, old(root.document), root.journal)
    ensures root.document ==
            if MovedOn(fold, Starting(fold, root.run, old(root.document), root.journal), root.journal)
               && persist && root.writable then Some(DocumentOf(root.run, projected.View()))
            else old(root.document)
    ensures var from := Starting(fold, root.run, old(root.document), root.journal);
      projected.took == from.coverage.records + LinesRead(fold, from, root.journal) -
        if Usable(fold, root.run, old(root.document), root.journal) then old(root.document).value.coverage.records
        else 0
  {
    var rebuilt;
    projected, rebuilt := Start(fold, root, persist);
    projected.Refresh(root);
    projected.took := projected.took + rebuilt;
  }
}
