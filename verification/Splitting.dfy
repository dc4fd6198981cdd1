/**
 Text split at a mark, and joined back: what `str::split` and `join` do of one another.
 */
module Splitting {
  function Split(s: string, mark: char): (parts: seq<string>)
    ensures parts != []
  {
    if s == "" then [""]
    else
      var parts, last := Split(s[..|s| - 1], mark), s[|s| - 1];
      if last == mark then parts + [""] else parts[|parts| - 1 := parts[|parts| - 1] + [last]]
  }

  function Join(parts: seq<string>, mark: char): string {
    if parts == [] then ""
    else if |parts| == 1 then parts[0]
    else Join(parts[..|parts| - 1], mark) + [mark] + parts[|parts| - 1]
  }

  ghost predicate Without(parts: seq<string>, mark: char) {
    forall i :: 0 <= i < |parts| ==> mark !in parts[i]
  }

  lemma {:induction false} SplitAfterMark(a: string, part: string, whole: string, mark: char)
    requires mark !in part && whole == a + [mark] + part
    ensures Split(whole, mark) == Split(a, mark) + [part]
    decreases |part|
  {
    var front := whole[..|whole| - 1];
    if part == "" {
      assert front == a && whole[|whole| - 1] == mark;
    } else {
      var less, last := part[..|part| - 1], part[|part| - 1];
      assert front == a + [mark] + less && whole[|whole| - 1] == last;
      SplitAfterMark(a, less, front, mark);
      assert part == less + [last];
    }
  }

  lemma {:induction false} SplitOne(part: string, mark: char)
    requires mark !in part
    ensures Split(part, mark) == [part]
  {
    if part != "" {
      var less, last := part[..|part| - 1], part[|part| - 1];
      SplitOne(less, mark);
      assert part == less + [last];
    }
  }

  /** Parts without the mark come back from their joining as they went in. */
  lemma {:induction false} SplitJoin(parts: seq<string>, mark: char)
    requires parts != [] && Without(parts, mark)
    ensures Split(Join(parts, mark), mark) == parts
  {
    if |parts| == 1 {
      SplitOne(parts[0], mark);
    } else {
      var front, last := parts[..|parts| - 1], parts[|parts| - 1];
      SplitJoin(front, mark);
      SplitAfterMark(Join(front, mark), last, Join(parts, mark), mark);
      LastPut(parts, front, last);
    }
  }

  lemma LastPut<T>(s: seq<T>, front: seq<T>, last: T)
    requires s != [] && front == s[..|s| - 1] && last == s[|s| - 1]
    ensures front + [last] == s
  {
  }

  /** And a text is its parts, joined: none of them holds the mark. */
  lemma {:induction false} JoinSplit(s: string, mark: char)
    ensures Join(Split(s, mark), mark) == s && Without(Split(s, mark), mark)
  {
    if s != "" {
      var front, last := s[..|s| - 1], s[|s| - 1];
      JoinSplit(front, mark);
      LastPut(s, front, last);
      JoinGrows(Split(front, mark), last, mark);
    }
  }

  lemma {:induction false} JoinStarts(parts: seq<string>, mark: char)
    requires parts != [] && parts[0] != ""
    ensures Join(parts, mark) != "" && Join(parts, mark)[0] == parts[0][0]
  {
    if |parts| > 1 {
      JoinStarts(parts[..|parts| - 1], mark);
    }
  }

  lemma JoinGrows(parts: seq<string>, last: char, mark: char)
    requires parts != []
    ensures Join(parts + [""], mark) == Join(parts, mark) + [mark]
    ensures Join(parts[|parts| - 1 := parts[|parts| - 1] + [last]], mark) == Join(parts, mark) + [last]
  {
    var ended, longer := parts + [""], parts[|parts| - 1 := parts[|parts| - 1] + [last]];
    assert ended[..|ended| - 1] == parts;
    assert longer[..|longer| - 1] == parts[..|parts| - 1];
  }
}
