/**
 The reader of a logged launch (src/agentgraph.rs, `logged_since` and `logged_envelopes`):
 polled while another process appends to the file, it hands each envelope out once.
 */
module LoggedLines {
  import opened ByteLines
  import opened Wrappers

  // ---- what reads as text ------------------------------------------------

  predicate Tail(byte: Byte) {
    0x80 <= byte <= 0xBF
  }

  /** How many bytes the character `bytes` starts with takes, or none where it starts with none. */
  function CharLength(bytes: seq<Byte>): (length: nat)
    ensures length <= |bytes|
    ensures length > 1 ==> forall i :: 0 <= i < length ==> bytes[i] >= 0x80
  {
    if bytes == [] then 0
    else if bytes[0] < 0x80 then 1
    else if |bytes| >= 2 && 0xC2 <= bytes[0] <= 0xDF && Tail(bytes[1]) then 2
    else if |bytes| >= 3 && 0xE0 <= bytes[0] <= 0xEF && Tail(bytes[1]) && Tail(bytes[2])
            && (bytes[0] == 0xE0 ==> bytes[1] >= 0xA0) && (bytes[0] == 0xED ==> bytes[1] <= 0x9F) then 3
    else if |bytes| >= 4 && 0xF0 <= bytes[0] <= 0xF4 && Tail(bytes[1]) && Tail(bytes[2]) && Tail(bytes[3])
            && (bytes[0] == 0xF0 ==> bytes[1] >= 0x90) && (bytes[0] == 0xF4 ==> bytes[1] <= 0x8F) then 4
    else 0
  }

  /** Whether `bytes` are whole UTF-8. */
  predicate Readable(bytes: seq<Byte>)
    decreases |bytes|
  {
    bytes == [] || (CharLength(bytes) > 0 && Readable(bytes[CharLength(bytes)..]))
  }

  /** A text cut where one readable part ends is readable after it. */
  lemma {:induction false} ReadableAfter(a: seq<Byte>, b: seq<Byte>)
    requires Readable(a) && Readable(a + b)
    ensures Readable(b)
    decreases |a|
  {
    if a == [] {
      assert a + b == b;
    } else {
      var n := CharLength(a);
      assert CharLength(a + b) == n;
      assert (a + b)[n..] == a[n..] + b;
      ReadableAfter(a[n..], b);
    }
  }

  /** A readable text is readable up to any newline in it. */
  lemma {:induction false} ReadableToNewline(bytes: seq<Byte>, end: nat)
    requires Readable(bytes) && 0 < end <= |bytes| && bytes[end - 1] == NEWLINE
    ensures Readable(bytes[..end])
    decreases |bytes|
  {
    var n := CharLength(bytes);
    assert n > 1 ==> n < end;
    var line := bytes[..end];
    assert CharLength(line) == n;
    assert line[n..] == bytes[n..][..end - n];
    if end > n {
      ReadableToNewline(bytes[n..], end - n);
    }
  }

  // ---- what more could make text -----------------------------------------

  /** Whether `bytes` are the start of a character that more bytes would finish. */
  predicate CharStart(bytes: seq<Byte>) {
    || (|bytes| == 1 && 0xC2 <= bytes[0] <= 0xF4)
    || (|bytes| == 2 && SecondByte(bytes[0], bytes[1]) && bytes[0] >= 0xE0)
    || (|bytes| == 3 && SecondByte(bytes[0], bytes[1]) && Tail(bytes[2]) && bytes[0] >= 0xF0)
  }

  /** Whether `second` may follow `first` in a character of three or four bytes. */
  predicate SecondByte(first: Byte, second: Byte) {
    && 0xE0 <= first <= 0xF4 && Tail(second)
    && (first == 0xE0 ==> second >= 0xA0) && (first == 0xED ==> second <= 0x9F)
    && (first == 0xF0 ==> second >= 0x90) && (first == 0xF4 ==> second <= 0x8F)
  }

  /** Whether `bytes` are whole characters, with at most the start of one after them. */
  predicate Completes(bytes: seq<Byte>)
    decreases |bytes|
  {
    bytes == [] || CharStart(bytes) || (CharLength(bytes) > 0 && Completes(bytes[CharLength(bytes)..]))
  }

  /** The rest of a character begun. */
  function Finish(bytes: seq<Byte>): (rest: seq<Byte>)
    requires CharStart(bytes)
    ensures CharLength(bytes + rest) == |bytes + rest| > 0
  {
    var second := if bytes[0] == 0xE0 then 0xA0 else if bytes[0] == 0xF0 then 0x90 else 0x80;
    if bytes[0] < 0xE0 then [0x80]
    else if bytes[0] < 0xF0 then if |bytes| == 1 then [second, 0x80] else [0x80]
    else if |bytes| == 1 then [second, 0x80, 0x80]
    else if |bytes| == 2 then [0x80, 0x80]
    else [0x80]
  }

  lemma OneCharReads(bytes: seq<Byte>)
    requires CharLength(bytes) == |bytes| > 0
    ensures Readable(bytes)
  {
    assert bytes[CharLength(bytes)..] == [];
  }

  lemma CharThenReads(bytes: seq<Byte>, rest: seq<Byte>, more: seq<Byte>)
    requires CharLength(bytes) > 0 && rest == bytes[CharLength(bytes)..] && Readable(rest + more)
    ensures Readable(bytes + more)
  {
    CharStays(bytes, bytes + more);
    TailJoins(bytes, CharLength(bytes), rest, more);
  }

  /** A whole character is the same whatever follows it. */
  lemma CharStays(bytes: seq<Byte>, longer: seq<Byte>)
    requires CharLength(bytes) > 0 && bytes <= longer
    ensures CharLength(longer) == CharLength(bytes)
  {
    assert forall i :: 0 <= i < |bytes| ==> longer[i] == bytes[i];
  }

  lemma TailJoins<T>(s: seq<T>, n: nat, rest: seq<T>, more: seq<T>)
    requires n <= |s| && rest == s[n..]
    ensures (s + more)[n..] == rest + more
  {
  }

  lemma {:induction false} CompletedReads(bytes: seq<Byte>) returns (more: seq<Byte>)
    requires Completes(bytes)
    ensures Readable(bytes + more)
    decreases |bytes|
  {
    if bytes == [] {
      more := [];
    } else if CharStart(bytes) {
      more := Finish(bytes);
      OneCharReads(bytes + more);
    } else {
      var n := CharLength(bytes);
      more := CompletedReads(bytes[n..]);
      CharThenReads(bytes, bytes[n..], more);
    }
  }

  lemma {:induction false} ReadCompletes(bytes: seq<Byte>, more: seq<Byte>)
    requires Readable(bytes + more)
    ensures Completes(bytes)
    decreases |bytes|
  {
    if bytes != [] {
      var all := bytes + more;
      var n := CharLength(all);
      if n > |bytes| {
        CutChar(bytes, more);
      } else {
        assert CharLength(bytes) == n;
        assert all[n..] == bytes[n..] + more;
        ReadCompletes(bytes[n..], more);
      }
    }
  }

  /** A character cut short is the start of one. */
  lemma CutChar(bytes: seq<Byte>, more: seq<Byte>)
    requires bytes != [] && CharLength(bytes + more) > |bytes|
    ensures CharStart(bytes)
  {
    var all := bytes + more;
    assert all[0] == bytes[0];
    assert |bytes| > 1 ==> all[1] == bytes[1];
    assert |bytes| > 2 ==> all[2] == bytes[2];
  }

  /** Exactly the bytes some writing could still make text of are those that are text but for a character begun. */
  lemma CompletesExactly(bytes: seq<Byte>)
    ensures Completes(bytes) <==> exists more :: Readable(bytes + more)
  {
    if Completes(bytes) {
      var more := CompletedReads(bytes);
    }
    if more :| Readable(bytes + more) {
      ReadCompletes(bytes, more);
    }
  }

  lemma {:induction false} ReadsJoin(a: seq<Byte>, b: seq<Byte>)
    requires Readable(a) && Readable(b)
    ensures Readable(a + b)
    decreases |a|
  {
    if a == [] {
      assert a + b == b;
    } else {
      var n := CharLength(a);
      assert CharLength(a + b) == n && (a + b)[n..] == a[n..] + b;
      ReadsJoin(a[n..], b);
    }
  }

  // ---- the reader --------------------------------------------------------

  /** What a read from `from` answers: nothing where the file is shorter, or what is there is not whole text yet. */
  function LoggedSince(file: seq<Byte>, from: nat): seq<Byte> {
    if from > |file| || !Readable(file[from..]) then [] else file[from..]
  }

  class Logged {
    // How far the file has been read: never into a line its writer has not terminated.
    var readTo: nat

    constructor (from: nat)
      ensures readTo == from
    {
      readTo := from;
    }

    /** The envelopes written since this was last asked. */
    method LoggedEnvelopes<E>(file: seq<Byte>, parse: Parse<E>) returns (envelopes: seq<E>)
      modifies this
      ensures Polls(parse, file, old(readTo), readTo, envelopes)
    {
      var text := LoggedSince(file, readTo);
      ghost var before := readTo;
      ghost var lines: seq<seq<Byte>> := [];
      var rest := text;
      envelopes := [];
      while LineEnd(rest) > 0
        invariant Lines(text) == lines + Lines(rest)
        invariant before + Terminated(text) == readTo + Terminated(rest)
        invariant envelopes == Parsed(parse, lines)
        decreases |rest|
      {
        var line := rest[..LineEnd(rest)];
        rest := rest[LineEnd(rest)..];
        readTo := readTo + |line|;
        var envelope := parse(line);
        if envelope.Some? {
          envelopes := envelopes + [envelope.value];
        }
        ParsedNext(parse, lines, line);
        OneMore(lines, line, Lines(rest));
        lines := lines + [line];
      }
      assert lines + [] == lines;
    }
  }

  lemma OneMore<T>(a: seq<T>, x: T, b: seq<T>)
    ensures a + ([x] + b) == a + [x] + b
  {
  }

  /** A poll's answers, and where it leaves the reader. */
  ghost predicate Polls<E>(parse: Parse<E>, file: seq<Byte>, before: nat, after: nat, envelopes: seq<E>) {
    && after == before + Terminated(LoggedSince(file, before))
    && envelopes == Parsed(parse, Lines(LoggedSince(file, before)))
  }

  // ---- over a run of polls -----------------------------------------------

  function Joined<E>(answers: seq<seq<E>>): seq<E> {
    if answers == [] then [] else Joined(answers[..|answers| - 1]) + answers[|answers| - 1]
  }

  /** A file only ever appended to, polled as it stands at each of `files`. */
  ghost predicate IsRun<E>(parse: Parse<E>, from: nat, files: seq<seq<Byte>>, reach: seq<nat>, answers: seq<seq<E>>) {
    && |reach| == |files| + 1 && |answers| == |files| && reach[0] == from
    && (forall n, next :: 0 <= n && next == n + 1 && next < |files| ==> files[n] <= files[next])
    && forall n :: 0 <= n < |files| ==> Polls(parse, files[n], reach[n], reach[n + 1], answers[n])
  }

  /** Where a reader stands: on a line's end, with everything before it read once. */
  ghost predicate Stands<E>(parse: Parse<E>, file: seq<Byte>, from: nat, reach: nat, said: seq<E>) {
    && from <= reach <= |file| && WholeLines(file[from..reach])
    && said == Parsed(parse, Lines(file[from..reach]))
  }

  lemma PollStands<E>(
    parse: Parse<E>, file: seq<Byte>, from: nat, before: nat, after: nat, said: seq<E>, envelopes: seq<E>
  )
    requires Stands(parse, file, from, before, said) && Polls(parse, file, before, after, envelopes)
    ensures Stands(parse, file, from, after, said + envelopes)
  {
    assert after <= |file|;
    var seen, all := file[from..before], file[from..after];
    var whole := PollReads(parse, file, from, before, after, envelopes, seen, all);
    SaidThen(parse, seen, whole, all);
  }

  lemma PollReads<E>(
    parse: Parse<E>, file: seq<Byte>, from: nat, before: nat, after: nat, envelopes: seq<E>, seen: seq<Byte>,
    all: seq<Byte>
  ) returns (whole: seq<Byte>)
    requires from <= before <= |file| && Polls(parse, file, before, after, envelopes) && after <= |file|
    requires seen == file[from..before] && all == file[from..after]
    ensures WholeLines(whole) && all == seen + whole && envelopes == Parsed(parse, Lines(whole))
  {
    var text := LoggedSince(file, before);
    whole := file[before..after];
    SlicesJoin(file, from, before, after);
    TextIsTheSlice(file, before, after, text, whole);
    TerminatedIsWhole(text, whole);
  }

  lemma SlicesJoin<T>(s: seq<T>, a: nat, b: nat, c: nat)
    requires a <= b <= c <= |s|
    ensures s[a..c] == s[a..b] + s[b..c]
  {
  }

  lemma TextIsTheSlice(file: seq<Byte>, before: nat, after: nat, text: seq<Byte>, whole: seq<Byte>)
    requires before <= after <= |file| && whole == file[before..after]
    requires text == LoggedSince(file, before) && after == before + Terminated(text)
    ensures whole == text[..Terminated(text)]
  {
    var reach := Terminated(text);
    if text != [] {
      assert text[..reach] == file[before..before + reach];
    }
  }

  lemma SaidThen<E>(parse: Parse<E>, seen: seq<Byte>, more: seq<Byte>, all: seq<Byte>)
    requires WholeLines(seen) && WholeLines(more) && all == seen + more
    ensures WholeLines(all) && Parsed(parse, Lines(all)) == Parsed(parse, Lines(seen)) + Parsed(parse, Lines(more))
  {
    WholeJoins(seen, more, all);
    ParsedOfBoth(parse, seen, more, all);
  }

  lemma ParsedOfBoth<E>(parse: Parse<E>, seen: seq<Byte>, more: seq<Byte>, all: seq<Byte>)
    requires WholeLines(seen) && all == seen + more
    ensures Parsed(parse, Lines(all)) == Parsed(parse, Lines(seen)) + Parsed(parse, Lines(more))
  {
    LinesJoin(seen, more, all);
    ParsedJoins(parse, Lines(seen), Lines(more));
  }

  /**
   However the file grows between polls, in whatever chunks: what the polls hand out, put
   together, is what the terminated lines read so far parse to, each once and in order.
   */
  lemma {:induction false} EachEnvelopeOnce<E>(
    parse: Parse<E>, from: nat, files: seq<seq<Byte>>, reach: seq<nat>, answers: seq<seq<E>>, n: nat
  )
    requires IsRun(parse, from, files, reach, answers) && n < |files| && from <= |files[0]|
    ensures Stands(parse, files[n], from, reach[n + 1], Joined(answers[..n + 1]))
  {
    var done := answers[..n + 1];
    assert done[..n] == answers[..n];
    var file, before, after, envelopes := files[n], reach[n], reach[n + 1], answers[n];
    assert Polls(parse, file, before, after, envelopes);
    if n == 0 {
      assert answers[..0] == [] && file[from..from] == [];
      assert Stands(parse, file, from, from, []);
      PollStands(parse, file, from, from, after, [], envelopes);
      assert [] + envelopes == envelopes;
    } else {
      var last := n - 1;
      EachEnvelopeOnce(parse, from, files, reach, answers, last);
      assert files[last] <= file;
      StandsAsItGrows(parse, files[last], file, from, before, Joined(answers[..n]));
      PollStands(parse, file, from, before, after, Joined(answers[..n]), envelopes);
    }
  }

  lemma StandsAsItGrows<E>(parse: Parse<E>, file: seq<Byte>, longer: seq<Byte>, from: nat, reach: nat, said: seq<E>)
    requires Stands(parse, file, from, reach, said) && file <= longer
    ensures Stands(parse, longer, from, reach, said)
  {
    assert longer[from..reach] == file[from..reach];
  }

  // ---- when a poll gets on -----------------------------------------------

  /** A poll hands out everything terminated exactly where what it reads is whole text, or holds no line to hand out. */
  lemma PollIsCompleteWhereReadable<E>(parse: Parse<E>, file: seq<Byte>, before: nat, after: nat, envelopes: seq<E>)
    requires before <= |file| && Polls(parse, file, before, after, envelopes)
    ensures after == before + Terminated(file[before..]) <==>
      Readable(file[before..]) || Terminated(file[before..]) == 0
  {
  }

  /**
   A reader standing on a line's end of a file that is whole text is handed all there is, whatever it
   was handed before.
   */
  lemma AtRestNothingIsLeft<E>(
    parse: Parse<E>, file: seq<Byte>, from: nat, before: nat, after: nat, said: seq<E>, envelopes: seq<E>
  )
    requires Stands(parse, file, from, before, said) && Polls(parse, file, before, after, envelopes)
    requires Readable(file[from..])
    ensures after == from + Terminated(file[from..]) && said + envelopes == Parsed(parse, Lines(file[from..]))
  {
    var seen, rest, all := file[from..before], file[before..], file[from..];
    SlicesJoin(file, from, before, |file|);
    assert file[from..|file|] == all && file[before..|file|] == rest;
    ReadableAfterLines(seen, rest, all);
    PollIsCompleteWhereReadable(parse, file, before, after, envelopes);
    assert LoggedSince(file, before) == rest;
    LinesJoin(seen, rest, all);
    ParsedJoins(parse, Lines(seen), Lines(rest));
  }

  lemma ReadableAfterLines(seen: seq<Byte>, rest: seq<Byte>, all: seq<Byte>)
    requires WholeLines(seen) && all == seen + rest && Readable(all)
    ensures Readable(rest)
  {
    if seen != [] {
      assert all[..|seen|] == seen;
      ReadableToNewline(all, |seen|);
    }
    ReadableAfter(seen, rest);
  }

  lemma StoppedReadsNothing<E>(
    parse: Parse<E>, file: seq<Byte>, longer: seq<Byte>, reach: nat, after: nat, envelopes: seq<E>
  )
    requires reach <= |file| && file <= longer && !Completes(file[reach..])
    requires Polls(parse, longer, reach, after, envelopes)
    ensures after == reach && envelopes == []
  {
    var rest, grown := file[reach..], longer[|file|..];
    TailOf(file, reach, rest, grown, longer);
    if Readable(rest + grown) {
      ReadCompletes(rest, grown);
      assert false;
    }
    assert LoggedSince(longer, reach) == [];
  }

  /**
   Once what is past the reader is neither text nor text with a character begun, the reader
   is stopped for good: whatever is appended, no later poll hands anything out, of the lines
   before the bad bytes or of any after them.
   */
  lemma {:induction false} BadBytesStopTheReader<E>(
    parse: Parse<E>, from: nat, files: seq<seq<Byte>>, reach: seq<nat>, answers: seq<seq<E>>, n: nat, m: nat
  )
    requires IsRun(parse, from, files, reach, answers) && n <= m < |files|
    requires reach[n] <= |files[n]| && !Completes(files[n][reach[n]..])
    ensures files[n] <= files[m] && reach[m + 1] == reach[n] && answers[m] == []
  {
    assert Polls(parse, files[m], reach[m], reach[m + 1], answers[m]);
    if n < m {
      var last := m - 1;
      BadBytesStopTheReader(parse, from, files, reach, answers, n, last);
      assert files[last] <= files[m];
    }
    StoppedReadsNothing(parse, files[n], files[m], reach[n], reach[m + 1], answers[m]);
  }

  /** And otherwise it is not: something can be appended that has the next poll read everything there is. */
  lemma AnythingElseGetsOn<E>(parse: Parse<E>, file: seq<Byte>, reach: nat) returns (longer: seq<Byte>)
    requires reach <= |file| && Completes(file[reach..])
    ensures file < longer
    ensures forall after, envelopes :: Polls(parse, longer, reach, after, envelopes) ==> after == |longer|
  {
    var rest := file[reach..];
    var more := CompletedReads(rest);
    var grown := more + [NEWLINE];
    longer := file + grown;
    TailOf(file, reach, rest, grown, longer);
    EndedReads(rest, more, rest + grown);
    EndsInFull(rest + grown);
    assert LoggedSince(longer, reach) == rest + grown;
  }

  lemma TailOf<T>(s: seq<T>, reach: nat, rest: seq<T>, grown: seq<T>, longer: seq<T>)
    requires reach <= |s| && rest == s[reach..] && longer == s + grown
    ensures longer[reach..] == rest + grown && |longer| == reach + |rest + grown|
  {
  }

  lemma EndedReads(rest: seq<Byte>, more: seq<Byte>, ended: seq<Byte>)
    requires Readable(rest + more) && ended == rest + (more + [NEWLINE])
    ensures Readable(ended)
  {
    OneCharReads([NEWLINE]);
    ReadsJoin(rest + more, [NEWLINE]);
    assert ended == rest + more + [NEWLINE];
  }

  lemma EndsInFull(bytes: seq<Byte>)
    requires bytes != [] && WholeLines(bytes)
    ensures Terminated(bytes) == |bytes|
  {
    LinesJoin(bytes, [], bytes + []);
    assert bytes + [] == bytes;
  }

  /** A stray byte, one no UTF-8 has and one that only follows, each stop it; half a character does not. */
  lemma WhichBytesStopIt(line: seq<Byte>)
    requires Readable(line)
    ensures !Completes(line + [0xFF]) && !Completes(line + [0xC0]) && !Completes(line + [0x80])
    ensures !Completes(line + [0xE2, NEWLINE])
    ensures Completes(line + [0xE2]) && Completes(line + [0xF0, 0x9F])
  {
    AfterText(line, [0xFF]);
    AfterText(line, [0xC0]);
    AfterText(line, [0x80]);
    AfterText(line, [0xE2, NEWLINE]);
    AfterText(line, [0xE2]);
    AfterText(line, [0xF0, 0x9F]);
  }

  lemma {:induction false} AfterText(line: seq<Byte>, bytes: seq<Byte>)
    requires Readable(line)
    ensures Completes(line + bytes) <==> Completes(bytes)
    decreases |line|
  {
    if line == [] {
      assert line + bytes == bytes;
    } else {
      var n := CharLength(line);
      assert CharLength(line + bytes) == n && (line + bytes)[n..] == line[n..] + bytes;
      AfterText(line[n..], bytes);
      NoCharStarts(line, bytes);
    }
  }

  /** A whole character is the start of no other. */
  lemma NoCharStarts(line: seq<Byte>, bytes: seq<Byte>)
    requires CharLength(line) > 0
    ensures !CharStart(line + bytes)
  {
    var all := line + bytes;
    assert forall i :: 0 <= i < |line| ==> all[i] == line[i];
  }
}
