/**
 A run's store as a reader meets it (src/journal.rs, src/event.rs): envelopes,
 where they sort, and the lines of the file they are on.

 A timestamp and a stream id are strings the source only ever compares; each is
 carried here as its rank in that order.
 */
module Journal {
  import opened Wrappers

  datatype Envelope = Envelope(
    ts: nat,
    stream: nat,
    number: nat,             // the producer's own `seq`
    kind: string,
    judged: Option<string>,  // the node a failing judge verdict on it names
    payload: string
  )

  /** The key that decides between two streams' records. */
  datatype Placed = Placed(ts: nat, stream: nat)

  function PlacedOf(event: Envelope): Placed {
    Placed(event.ts, event.stream)
  }

  predicate AtOrBefore(a: Placed, b: Placed) {
    a.ts < b.ts || (a.ts == b.ts && a.stream <= b.stream)
  }

  // ---- the file ----------------------------------------------------------

  datatype LossKind = LostTruncated | LostUnparseable

  /** What of one line is lost: its class, where the line begins, and how many bytes. */
  datatype Lost = Lost(kind: LossKind, offset: nat, bytes: nat)

  /** What one line turned out to be. */
  datatype Reading =
    | Whole(event: Envelope)
    | Blank
    | Glued(lost: nat, event: Envelope)
    | Truncated
    | Unparseable

  /** One line of the file, its terminator not counted. */
  datatype Line = Line(reading: Reading, bytes: nat)

  /** The file: its finished lines, and what a writer has not terminated. */
  datatype File = File(lines: seq<Line>, tail: Option<Line>)

  /** A finished line's size: its terminator at least. */
  type Size = bytes: nat | bytes > 0 witness 1

  /** A finished line as a fold takes it, its terminator counted. */
  datatype FinishedLine = FinishedLine(record: Option<Envelope>, bytes: Size, lost: Option<Lost>)

  function LostOf(reading: Reading, offset: nat, bytes: nat): Option<Lost> {
    match reading
    case Whole(_) => None
    case Blank => None
    case Glued(lost, _) => Some(Lost(LostTruncated, offset, lost))
    case Truncated => Some(Lost(LostTruncated, offset, bytes))
    case Unparseable => Some(Lost(LostUnparseable, offset, bytes))
  }

  function RecordOf(reading: Reading): Option<Envelope> {
    match reading
    case Whole(event) => Some(event)
    case Glued(_, event) => Some(event)
    case _ => None
  }

  function Finish(line: Line, offset: nat): FinishedLine {
    FinishedLine(RecordOf(line.reading), line.bytes + 1, LostOf(line.reading, offset, line.bytes))
  }

  /** The finished lines of a file, each knowing where it begins. */
  function Finished(lines: seq<Line>, offset: nat): (finished: seq<FinishedLine>)
    ensures |finished| == |lines|
    decreases |lines|
  {
    if lines == [] then []
    else [Finish(lines[0], offset)] + Finished(lines[1..], offset + lines[0].bytes + 1)
  }

  function SizeOf(lines: seq<FinishedLine>): nat {
    if lines == [] then 0 else SizeOf(lines[..|lines| - 1]) + lines[|lines| - 1].bytes
  }

  /** The records of some lines, in file order. */
  function Records(lines: seq<FinishedLine>): (records: seq<Envelope>)
    ensures |records| <= |lines|
  {
    if lines == [] then []
    else Records(lines[..|lines| - 1]) +
         (match lines[|lines| - 1].record case Some(event) => [event] case None => [])
  }

  lemma {:induction false} RecordsJoin(a: seq<FinishedLine>, b: seq<FinishedLine>)
    ensures Records(a + b) == Records(a) + Records(b)
    ensures SizeOf(a + b) == SizeOf(a) + SizeOf(b)
    decreases |b|
  {
    if b == [] {
      assert a + b == a;
    } else {
      var last := |b| - 1;
      assert (a + b)[..|a + b| - 1] == a + b[..last];
      RecordsJoin(a, b[..last]);
    }
  }

  lemma {:induction false} RecordsAre(lines: seq<FinishedLine>, event: Envelope)
    ensures event in Records(lines) <==> exists i :: 0 <= i < |lines| && lines[i].record == Some(event)
    decreases |lines|
  {
    if lines != [] {
      RecordsAre(lines[..|lines| - 1], event);
    }
  }
}
