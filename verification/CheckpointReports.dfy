/**
 What is read off a cached fold instead of off the journal (src/checkpoint.rs):
 the `seq` a writer takes its next one above, the lines a store lost, and whether
 the document is still what its writer sealed.
 */
module CheckpointReports {
  import opened Checkpoint
  import opened CheckpointCuts
  import opened CheckpointRuns
  import opened Coverage
  import opened Digest
  import opened Folding
  import opened Journal
  import opened Wrappers

  // ---- the next `seq` ----------------------------------------------------

  lemma ReachesJoin(
    a: map<nat, nat>, front: seq<Envelope>, b: map<nat, nat>, later: seq<Envelope>, joined: map<nat, nat>
  )
    requires Reaches(a, front) && Reaches(b, later)
    requires joined.Keys == a.Keys + b.Keys
    requires forall s :: s in joined ==>
               (s in a ==> a[s] <= joined[s]) && (s in b ==> b[s] <= joined[s]) &&
               ((s in a && joined[s] == a[s]) || (s in b && joined[s] == b[s]))
    ensures Reaches(joined, front + later)
  {
    var all := front + later;
    forall s | s in joined ensures exists i :: 0 <= i < |all| && all[i].stream == s && all[i].number == joined[s] {
      if s in a && joined[s] == a[s] {
        var i :| 0 <= i < |front| && front[i].stream == s && front[i].number == a[s];
        assert all[i] == front[i];
      } else {
        var i :| 0 <= i < |later| && later[i].stream == s && later[i].number == b[s];
        assert all[|front| + i] == later[i];
      }
    }
  }

  ghost function Claims<S, A>(cached: Cached<S, A>): map<nat, nat> {
    map s | s in cached.coverage.streams.Keys + cached.claimedPast.Keys :: ClaimOf(cached, s).value
  }

  /** A reader claims, of every stream, exactly the greatest `seq` in the file it read. */
  lemma ClaimsAreExact<S(!new), A(!new)>(
    fold: Fold<S, A>, cached: Cached<S, A>, lines: seq<FinishedLine>, cuts: seq<nat>, stream: nat
  )
    requires Current(fold, cached, lines, cuts)
    ensures Reaches(Claims(cached), Records(lines))
    ensures ClaimOf(cached, stream) == if stream in Claims(cached) then Some(Claims(cached)[stream]) else None
  {
    var cut := LastCut(cuts);
    var front, later := lines[..cut], lines[cut..];
    CoveringIsExact(front, cached.coverage.digest);
    ClaimsJoin(cached, Records(front), Records(later));
    SplitRecords(lines, cut);
  }

  lemma ClaimsJoin<S, A>(cached: Cached<S, A>, front: seq<Envelope>, later: seq<Envelope>)
    requires Reaches(cached.coverage.streams, front) && Reaches(cached.claimedPast, later)
    ensures Reaches(Claims(cached), front + later)
  {
    ReachesJoin(cached.coverage.streams, front, cached.claimedPast, later, Claims(cached));
  }

  // ---- what a store lost -------------------------------------------------

  /** What the unfinished tail loses, were it line `line` at byte `offset`. */
  function TailLoss(tail: Option<Line>, offset: nat, line: nat): seq<LineLost> {
    match tail
    case None => []
    case Some(cut) =>
      match LostOf(cut.reading, offset, cut.bytes)
      case None => []
      case Some(lost) => [LineLost(lost.kind, line, lost.offset, lost.bytes)]
  }

  /** The losses of some lines and the tail past them, the first at byte `from` and numbered after `first`. */
  function LossesFrom(lines: seq<Line>, tail: Option<Line>, from: nat, first: nat): seq<LineLost> {
    LossesOf(Finished(lines, from), first) + TailLoss(tail, from + LinesSize(lines), first + |lines| + 1)
  }

  /** A whole read's losses: every line from the first, each where it is. */
  function AllLosses(file: File): seq<LineLost> {
    LossesFrom(file.lines, file.tail, 0, 0)
  }

  function OfKind(losses: seq<LineLost>, kind: LossKind): seq<LineLost> {
    if losses == [] then []
    else OfKind(losses[..|losses| - 1], kind) +
         (if losses[|losses| - 1].kind == kind then [losses[|losses| - 1]] else [])
  }

  method Sorted(losses: seq<LineLost>) returns (truncated: seq<LineLost>, unparseable: seq<LineLost>)
    ensures truncated == OfKind(losses, LostTruncated)
    ensures unparseable == OfKind(losses, LostUnparseable)
  {
    truncated, unparseable := [], [];
    for at := 0 to |losses|
      invariant truncated == OfKind(losses[..at], LostTruncated)
      invariant unparseable == OfKind(losses[..at], LostUnparseable)
    {
      assert losses[..at + 1][..at] == losses[..at];
      match losses[at].kind {
        case LostTruncated => truncated := truncated + [losses[at]];
        case LostUnparseable => unparseable := unparseable + [losses[at]];
      }
    }
    assert losses[..|losses|] == losses;
  }

  lemma {:induction false} OfKindJoins(a: seq<LineLost>, b: seq<LineLost>, kind: LossKind)
    ensures OfKind(a + b, kind) == OfKind(a, kind) + OfKind(b, kind)
    decreases |b|
  {
    if b == [] {
      assert a + b == a;
    } else {
      assert (a + b)[..|a + b| - 1] == a + b[..|b| - 1];
      OfKindJoins(a, b[..|b| - 1], kind);
    }
  }

  /** Whether a line of this reading loses so many bytes, as a line of this kind. */
  ghost predicate Loses(line: Line, kind: LossKind, bytes: nat) {
    match line.reading
    case Glued(lost, _) => kind == LostTruncated && bytes == lost
    case Truncated => kind == LostTruncated && bytes == line.bytes
    case Unparseable => kind == LostUnparseable && bytes == line.bytes
    case _ => false
  }

  /** Whether a loss is that of some line of a file, counted from one and where it begins, or of its tail. */
  ghost predicate IsLoss(file: File, loss: LineLost) {
    || (exists i: nat :: i < |file.lines| && LostInLine(file.lines, i, loss))
    || (file.tail.Some? && loss.line == |file.lines| + 1 && loss.offset == LinesSize(file.lines)
        && Loses(file.tail.value, loss.kind, loss.bytes))
  }

  lemma {:induction false} FinishedAt(lines: seq<Line>, offset: nat, i: nat)
    requires i < |lines|
    ensures Finished(lines, offset)[i] == Finish(lines[i], offset + LinesSize(lines[..i]))
    decreases |lines|
  {
    if i > 0 {
      FinishedAt(lines[1..], offset + lines[0].bytes + 1, i - 1);
      assert lines[..i][1..] == lines[1..][..i - 1];
    }
  }

  /** Whether a finished line's loss, numbered `line`, is this one. */
  ghost predicate LostBy(finished: FinishedLine, line: nat, loss: LineLost) {
    && finished.lost.Some? && loss.line == line
    && finished.lost.value == Lost(loss.kind, loss.offset, loss.bytes)
  }

  lemma {:induction false} LossesOfAre(lines: seq<FinishedLine>, first: nat, loss: LineLost)
    ensures loss in LossesOf(lines, first) <==> exists i: nat :: i < |lines| && LostBy(lines[i], first + i + 1, loss)
  {
    if lines != [] {
      var last: nat := |lines| - 1;
      LossesOfAre(lines[..last], first, loss);
      assert forall i: nat :: i < last ==> lines[..last][i] == lines[i];
    }
  }

  lemma OneLoss(line: Line, offset: nat, n: nat, loss: LineLost)
    ensures LostBy(Finish(line, offset), n, loss) <==>
      loss.line == n && loss.offset == offset && Loses(line, loss.kind, loss.bytes)
  {
  }

  ghost predicate LostInLine(lines: seq<Line>, i: nat, loss: LineLost)
    requires i < |lines|
  {
    loss.line == i + 1 && loss.offset == LinesSize(lines[..i]) && Loses(lines[i], loss.kind, loss.bytes)
  }

  lemma LineLossesAre(lines: seq<Line>, loss: LineLost)
    ensures loss in LossesOf(Finished(lines, 0), 0) <==> exists i: nat :: i < |lines| && LostInLine(lines, i, loss)
  {
    LossesOfAre(Finished(lines, 0), 0, loss);
    if i: nat :| i < |lines| && LostBy(Finished(lines, 0)[i], 0 + i + 1, loss) {
      LostWhere(lines, i, loss);
    }
    if i: nat :| i < |lines| && LostInLine(lines, i, loss) {
      LostWhere(lines, i, loss);
    }
  }

  lemma LostWhere(lines: seq<Line>, i: nat, loss: LineLost)
    requires i < |lines|
    ensures LostBy(Finished(lines, 0)[i], 0 + i + 1, loss) <==> LostInLine(lines, i, loss)
  {
    FinishedAt(lines, 0, i);
    OneLoss(lines[i], LinesSize(lines[..i]), i + 1, loss);
  }

  lemma {:induction false} OfKindAre(losses: seq<LineLost>, kind: LossKind, loss: LineLost)
    ensures loss in OfKind(losses, kind) <==> loss in losses && loss.kind == kind
  {
    if losses != [] {
      var front, last := losses[..|losses| - 1], losses[|losses| - 1];
      assert losses == front + [last];
      OfKindAre(front, kind, loss);
    }
  }

  /** The losses of a kind are exactly those of the lines that lose something of it, each at its line and its byte. */
  lemma LossesAre(file: File, kind: LossKind, loss: LineLost)
    ensures loss in OfKind(AllLosses(file), kind) <==> loss.kind == kind && IsLoss(file, loss)
  {
    OfKindAre(AllLosses(file), kind, loss);
    LineLossesAre(file.lines, loss);
    TailLossIs(file.tail, LinesSize(file.lines), |file.lines| + 1, loss);
  }

  lemma TailLossIs(tail: Option<Line>, offset: nat, line: nat, loss: LineLost)
    ensures loss in TailLoss(tail, offset, line) <==>
      tail.Some? && loss.line == line && loss.offset == offset && Loses(tail.value, loss.kind, loss.bytes)
  {
  }

  /** What a reader met, numbered as one pass over the file numbers it. */
  lemma LossesMet<S(!new), A(!new)>(fold: Fold<S, A>, cached: Cached<S, A>, read: File, cuts: seq<nat>)
    requires Current(fold, cached, AllLines(read), cuts)
    ensures cached.tally.losses == LossesOf(AllLines(read), 0)
    ensures cached.readThrough == LinesSize(read.lines) && cached.linesThrough == |read.lines|
  {
    FinishedSize(read.lines, 0);
    TallyCounts(fold, AllLines(read), OrderOver(AllLines(read), cuts));
  }

  lemma LossesSplit(read: seq<Line>, rest: seq<Line>, tail: Option<Line>)
    ensures LossesOf(Finished(read, 0), 0) + LossesFrom(rest, tail, LinesSize(read), |read|)
         == LossesFrom(read + rest, tail, 0, 0)
  {
    var size, lines := LinesSize(read), read + rest;
    var end, line := LinesSize(lines), |lines| + 1;
    LinesLossesJoin(read, rest, size);
    SizesJoin(read, rest);
    LossesFromIs(rest, tail, size, |read|, end, line);
    LossesFromIs(lines, tail, 0, 0, end, line);
    Associates(LossesOf(Finished(read, 0), 0), LossesOf(Finished(rest, size), |read|), TailLoss(tail, end, line));
  }

  lemma LossesFromIs(lines: seq<Line>, tail: Option<Line>, from: nat, first: nat, end: nat, line: nat)
    requires end == from + LinesSize(lines) && line == first + |lines| + 1
    ensures LossesFrom(lines, tail, from, first) == LossesOf(Finished(lines, from), first) + TailLoss(tail, end, line)
  {
  }

  lemma LinesLossesJoin(read: seq<Line>, rest: seq<Line>, size: nat)
    requires size == LinesSize(read)
    ensures LossesOf(Finished(read + rest, 0), 0) ==
      LossesOf(Finished(read, 0), 0) + LossesOf(Finished(rest, size), |read|)
  {
    FinishedJoin(read, rest, 0, size);
    LossesJoin(Finished(read, 0), Finished(rest, size), 0, |read|);
  }

  /** Losses already met, followed by those of the rest of the file, are the losses of one pass. */
  lemma LossesResume<S(!new), A(!new)>(
    fold: Fold<S, A>, cached: Cached<S, A>, read: File, file: File, rest: seq<Line>, cuts: seq<nat>
  )
    requires Current(fold, cached, AllLines(read), cuts) && file.lines == read.lines + rest
    ensures file.lines[LineAt(file.lines, cached.readThrough)..] == rest
    ensures cached.tally.losses + LossesFrom(rest, file.tail, cached.readThrough, cached.linesThrough) ==
      AllLosses(file)
  {
    Halves(file.lines, read.lines, rest);
    LossesMet(fold, cached, read, cuts);
    LineAtBoundary(file.lines, |read.lines|);
    LossesSplit(read.lines, rest, file.tail);
  }

  /** `integrity`: the losses by class, from those a fold met and those past where it read. */
  method Integrity<S(!new), A(!new)>(
    fold: Fold<S, A>, cached: Cached<S, A>, ghost read: File, file: File, ghost cuts: seq<nat>
  )
      returns (truncated: seq<LineLost>, unparseable: seq<LineLost>)
    requires Current(fold, cached, AllLines(read), cuts) && read.lines <= file.lines
    ensures truncated == OfKind(AllLosses(file), LostTruncated)
    ensures unparseable == OfKind(AllLosses(file), LostUnparseable)
  {
    LossesResume(fold, cached, read, file, file.lines[|read.lines|..], cuts);
    var rest := file.lines[LineAt(file.lines, cached.readThrough)..];
    var past := LossesFrom(rest, file.tail, cached.readThrough, cached.linesThrough);
    var truncatedPast, unparseablePast := Sorted(past);
    truncated, unparseable := Sorted(cached.tally.losses);
    OfKindJoins(cached.tally.losses, past, LostTruncated);
    OfKindJoins(cached.tally.losses, past, LostUnparseable);
    truncated, unparseable := truncated + truncatedPast, unparseable + unparseablePast;
  }

  // ---- the seal ----------------------------------------------------------

  /** The number little-endian bytes say. */
  ghost function Little(bytes: seq<Byte>): nat {
    if bytes == [] then 0 else bytes[0] + 256 * Little(bytes[1..])
  }

  ghost function Power256(width: nat): nat {
    if width == 0 then 1 else 256 * Power256(width - 1)
  }

  lemma {:induction false} LittleReads(n: nat, width: nat)
    requires n < Power256(width)
    ensures |LittleEndian(n, width)| == width && Little(LittleEndian(n, width)) == n
  {
    if width > 0 {
      LittleReads(n / 256, width - 1);
      assert LittleEndian(n, width)[1..] == LittleEndian(n / 256, width - 1);
    }
  }

  lemma EightBytes(n: nat)
    requires n <= U64_MAX
    ensures |LittleEndian(n, 8)| == 8 && Little(LittleEndian(n, 8)) == n
  {
    assert Power256(4) == 0x1_0000_0000;
    assert Power256(8) == 0x1_0000_0000_0000_0000;
    LittleReads(n, 8);
  }

  /** Whether every number a marker claims is one the source's sixty-four bits hold. */
  ghost predicate Sized(coverage: Coverage) {
    && coverage.bytes <= U64_MAX && coverage.records <= U64_MAX
    && forall stream :: stream in coverage.streams ==> coverage.streams[stream] <= U64_MAX
  }

  ghost function Spelled(at: Option<Placed>, spell: nat -> seq<Byte>): seq<Byte> {
    match at
    case Some(at) => spell(at.ts) + spell(at.stream)
    case None => []
  }

  lemma {:induction false} StreamsAreSealed(
    a: map<nat, nat>, b: map<nat, nat>, keys: set<nat>, spell: nat -> seq<Byte>
  )
    requires keys <= a.Keys && keys <= b.Keys
    requires forall k :: k in keys ==> a[k] <= U64_MAX && b[k] <= U64_MAX
    ensures |StreamBytes(a, keys, spell)| == |StreamBytes(b, keys, spell)|
    ensures StreamBytes(a, keys, spell) == StreamBytes(b, keys, spell) ==> forall k :: k in keys ==> a[k] == b[k]
    decreases |keys|
  {
    if keys != {} {
      var stream := Least(keys);
      var rest := keys - {stream};
      StreamsAreSealed(a, b, rest, spell);
      EightBytes(a[stream]);
      EightBytes(b[stream]);
      var restA, restB := StreamBytes(a, rest, spell), StreamBytes(b, rest, spell);
      if StreamBytes(a, keys, spell) == StreamBytes(b, keys, spell) {
        PartsApart(spell(stream) + LittleEndian(a[stream], 8), restA, spell(stream) + LittleEndian(b[stream], 8),
          restB);
        PartsApart(spell(stream), LittleEndian(a[stream], 8), spell(stream), LittleEndian(b[stream], 8));
      }
    }
  }

  /** Two strings made of parts of the same lengths are one string only where the parts are. */
  lemma PartsApart(a: seq<Byte>, b: seq<Byte>, c: seq<Byte>, d: seq<Byte>)
    requires |a| == |c| && a + b == c + d
    ensures a == c && b == d
  {
    assert a == (a + b)[..|a|] && c == (c + d)[..|c|];
    assert b == (a + b)[|a|..] && d == (c + d)[|c|..];
  }

  /**
   Every claim a marker makes is sealed: of two markers over the same streams, whose places are
   spelled at one length, the sealed bytes are the same only where the claims are.
   */
  lemma ClaimsAreSealed(a: Coverage, b: Coverage, spell: nat -> seq<Byte>)
    requires Sized(a) && Sized(b) && a.streams.Keys == b.streams.Keys
    requires |Spelled(a.at, spell)| == |Spelled(b.at, spell)|
    ensures |ClaimBytes(a, spell)| >= 16
    ensures Little(ClaimBytes(a, spell)[..8]) == a.bytes && Little(ClaimBytes(a, spell)[8..16]) == a.records
    ensures ClaimBytes(a, spell) == ClaimBytes(b, spell) <==>
      a.bytes == b.bytes && a.records == b.records && Spelled(a.at, spell) == Spelled(b.at, spell)
      && a.streams == b.streams
  {
    ClaimsAreLaidOut(a, spell);
    ClaimsAreLaidOut(b, spell);
    StreamsAreSealed(a.streams, b.streams, a.streams.Keys, spell);
    var restA := Spelled(a.at, spell) + StreamBytes(a.streams, a.streams.Keys, spell);
    var restB := Spelled(b.at, spell) + StreamBytes(b.streams, b.streams.Keys, spell);
    if ClaimBytes(a, spell) == ClaimBytes(b, spell) {
      assert restA == restB;
      PartsApart(Spelled(a.at, spell), StreamBytes(a.streams, a.streams.Keys, spell),
                 Spelled(b.at, spell), StreamBytes(b.streams, b.streams.Keys, spell));
      assert a.streams == b.streams;
    }
  }

  lemma ClaimsAreLaidOut(coverage: Coverage, spell: nat -> seq<Byte>)
    requires Sized(coverage)
    ensures var bytes := ClaimBytes(coverage, spell);
      && |bytes| >= 16 && Little(bytes[..8]) == coverage.bytes && Little(bytes[8..16]) == coverage.records
      && bytes[16..] == Spelled(coverage.at, spell) + StreamBytes(coverage.streams, coverage.streams.Keys, spell)
  {
    EightBytes(coverage.bytes);
    EightBytes(coverage.records);
    var first, second := LittleEndian(coverage.bytes, 8), LittleEndian(coverage.records, 8);
    var rest := Spelled(coverage.at, spell) + StreamBytes(coverage.streams, coverage.streams.Keys, spell);
    assert ClaimBytes(coverage, spell) == first + second + rest;
    assert (first + second + rest)[..8] == first && (first + second + rest)[8..16] == second;
  }

  /** The bytes a document is sealed over, where its fold and tally can be written. */
  function SealedBytes<S, A>(fold: Fold<S, A>, document: Document<S, A>): Option<seq<Byte>> {
    match (fold.writeState(document.state), fold.writeTally(document.tally))
    case (Some(state), Some(tally)) => Some(ClaimBytes(document.coverage, fold.spell) + state + tally)
    case _ => None
  }

  /** What a document is sealed with; one whose state will not write, one past what its claims alone would be. */
  lemma SealIsDigest<S, A>(fold: Fold<S, A>, document: Document<S, A>)
    ensures var seal := SealedWith(fold, document.coverage, document.state, document.tally);
      match SealedBytes(fold, document)
      case Some(bytes) => seal == Digested(NOTHING_DIGESTED, bytes)
      case None =>
        var claims := Digested(NOTHING_DIGESTED, ClaimBytes(document.coverage, fold.spell));
        seal == if claims == MODULUS - 1 then 0 else claims + 1
  {
    DigestUndone(NOTHING_DIGESTED, ClaimBytes(document.coverage, fold.spell));
    if SealedBytes(fold, document).None? {
      return;
    }
    var claims := ClaimBytes(document.coverage, fold.spell);
    var state, tally := fold.writeState(document.state).value, fold.writeTally(document.tally).value;
    DigestStreams(NOTHING_DIGESTED, claims, state);
    DigestStreams(NOTHING_DIGESTED, claims + state, tally);
  }

  /** A sealed document edited in one byte, of a claim, the fold or the tally, is never resumed from. */
  lemma OneByteEditIsRefused<S(!new),
    A(!new)>(fold: Fold<S, A>, run: string, sealed: Document<S, A>, edited: Document<S, A>,
      file: File, before: seq<Byte>, x: Byte, y: Byte, after: seq<Byte>)
    requires SealedWith(fold, sealed.coverage, sealed.state, sealed.tally) == sealed.coverage.digest
    requires SealedBytes(fold, sealed) == Some(before + [x] + after)
    requires SealedBytes(fold, edited) == Some(before + [y] + after)
    requires x != y && edited.coverage.digest == sealed.coverage.digest
    ensures !Usable(fold, run, Some(edited), file)
  {
    SealIsDigest(fold, sealed);
    SealIsDigest(fold, edited);
    OneByteApart(NOTHING_DIGESTED, before, x, y, after);
  }
}
