/**
 A file of bytes as lines (src/ledger.rs, src/agentgraph.rs): where each ends, and what they
 parse to. What follows the last newline is no line yet.
 */
module ByteLines {
  import opened Wrappers

  const NEWLINE: Byte := 10

  /** Where the first line of `bytes` ends, its newline included, or none where it is not terminated. */
  function LineEnd(bytes: seq<Byte>): (end: nat)
    ensures end <= |bytes| && (end > 0 ==> bytes[end - 1] == NEWLINE)
  {
    if bytes == [] then 0
    else if bytes[0] == NEWLINE then 1
    else if LineEnd(bytes[1..]) == 0 then 0
    else 1 + LineEnd(bytes[1..])
  }

  /** The terminated lines of `bytes`, in order; what follows the last newline is no line yet. */
  function Lines(bytes: seq<Byte>): seq<seq<Byte>>
    decreases |bytes|
  {
    if LineEnd(bytes) == 0 then [] else [bytes[..LineEnd(bytes)]] + Lines(bytes[LineEnd(bytes)..])
  }

  /** How far the terminated lines of `bytes` reach. */
  function Terminated(bytes: seq<Byte>): (reach: nat)
    ensures reach <= |bytes|
    decreases |bytes|
  {
    if LineEnd(bytes) == 0 then 0 else LineEnd(bytes) + Terminated(bytes[LineEnd(bytes)..])
  }

  /** Whether `bytes` are whole lines: nothing, or ending where a line does. */
  predicate WholeLines(bytes: seq<Byte>) {
    bytes == [] || bytes[|bytes| - 1] == NEWLINE
  }

  lemma {:induction false} NewlinesEndLines(bytes: seq<Byte>, i: nat)
    requires i < |bytes| && bytes[i] == NEWLINE
    ensures 0 < LineEnd(bytes) <= i + 1
  {
    if i > 0 && bytes[0] != NEWLINE {
      NewlinesEndLines(bytes[1..], i - 1);
    }
  }

  lemma {:induction false} LineEndStays(a: seq<Byte>, b: seq<Byte>)
    requires LineEnd(a) > 0
    ensures LineEnd(a + b) == LineEnd(a)
  {
    if a[0] != NEWLINE {
      assert (a + b)[1..] == a[1..] + b;
      LineEndStays(a[1..], b);
    }
  }

  lemma Cut<T>(a: seq<T>, b: seq<T>, ab: seq<T>, end: nat, line: seq<T>, rest: seq<T>)
    requires ab == a + b && end <= |a| && line == a[..end] && rest == a[end..]
    ensures ab[..end] == line && ab[end..] == rest + b && a == line + rest
  {
  }

  lemma JoinedAgain<T>(x: T, a: seq<T>, b: seq<T>)
    ensures [x] + (a + b) == [x] + a + b
  {
  }

  /** Whole lines read, then what follows them: the lines of the two together. */
  lemma {:induction false} LinesJoin(a: seq<Byte>, b: seq<Byte>, ab: seq<Byte>)
    requires WholeLines(a) && ab == a + b
    ensures Lines(ab) == Lines(a) + Lines(b) && Terminated(ab) == |a| + Terminated(b)
    decreases |a|
  {
    if a == [] {
      assert ab == b;
    } else {
      NewlinesEndLines(a, |a| - 1);
      LineEndStays(a, b);
      var end := LineEnd(a);
      var line, rest, joined := a[..end], a[end..], ab[end..];
      Cut(a, b, ab, end, line, rest);
      LinesJoin(rest, b, joined);
      JoinedAgain(line, Lines(rest), Lines(b));
    }
  }

  /** What the lines of `bytes` reach over is whole, and holds them all. */
  lemma {:induction false} TerminatedIsWhole(bytes: seq<Byte>, whole: seq<Byte>)
    requires whole == bytes[..Terminated(bytes)]
    ensures WholeLines(whole) && Lines(whole) == Lines(bytes)
    decreases |bytes|
  {
    var end := LineEnd(bytes);
    if end > 0 {
      var line, rest := bytes[..end], bytes[end..];
      var reach := Terminated(rest);
      var restWhole := rest[..reach];
      TerminatedIsWhole(rest, restWhole);
      PrefixSplits(bytes, end, line, rest, reach, restWhole, whole);
      OneLine(bytes, line, end);
      LinesJoin(line, restWhole, whole);
      WholeJoins(line, restWhole, whole);
    }
  }

  lemma PrefixSplits<T>(s: seq<T>, end: nat, line: seq<T>, rest: seq<T>, reach: nat, front: seq<T>, whole: seq<T>)
    requires end <= |s| && line == s[..end] && rest == s[end..] && reach <= |rest| && front == rest[..reach]
    requires end + reach <= |s| && whole == s[..end + reach]
    ensures whole == line + front
  {
  }

  lemma WholeJoins(a: seq<Byte>, b: seq<Byte>, ab: seq<Byte>)
    requires WholeLines(a) && WholeLines(b) && ab == a + b
    ensures WholeLines(ab)
  {
  }

  lemma OneLine(bytes: seq<Byte>, line: seq<Byte>, end: nat)
    requires end == LineEnd(bytes) > 0 && line == bytes[..end]
    ensures WholeLines(line) && Lines(line) == [line]
  {
    NewlinesEndLines(line, end - 1);
    LineEndStays(line, bytes[end..]);
    assert line + bytes[end..] == bytes;
    assert line[..end] == line && line[end..] == [];
  }

  // ---- what lines parse to -----------------------------------------------

  /** What one line is read as, where it is an envelope this build reads. */
  type Parse<!E> = seq<Byte> -> Option<E>

  function Parsed<E>(parse: Parse<E>, lines: seq<seq<Byte>>): seq<E> {
    if lines == [] then []
    else
      var last := parse(lines[|lines| - 1]);
      Parsed(parse, lines[..|lines| - 1]) + if last.Some? then [last.value] else []
  }

  lemma {:induction false} ParsedJoins<E>(parse: Parse<E>, a: seq<seq<Byte>>, b: seq<seq<Byte>>)
    ensures Parsed(parse, a + b) == Parsed(parse, a) + Parsed(parse, b)
  {
    if b == [] {
      assert a + b == a;
    } else {
      var front := b[..|b| - 1];
      ParsedJoins(parse, a, front);
      assert (a + b)[..|a + b| - 1] == a + front;
    }
  }

  lemma ParsedNext<E>(parse: Parse<E>, lines: seq<seq<Byte>>, line: seq<Byte>)
    ensures Parsed(parse, lines + [line]) == Parsed(parse, lines) + if parse(line).Some? then [parse(line).value]
      else []
  {
    assert (lines + [line])[..|lines|] == lines;
  }
}
