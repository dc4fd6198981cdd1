/**
 Exactly when a covered prefix of the merge order is final (src/checkpoint.rs, "The hazard
 the coverage marker answers"): of any store, and of one whose streams' stamps follow
 their own `seq`.
 */
module MergeExact {
  import opened Journal
  import opened Merging
  import opened MergeSplit
  import opened Sorting

  /** Whether each stream's stamps follow the order the stream gives its records in. */
  ghost predicate InTime(events: seq<Envelope>) {
    forall i, j ::
      0 <= i < |events| && 0 <= j < |events| && events[i].stream == events[j].stream && Earlier(events, i, j) ==>
      events[i].ts <= events[j].ts
  }

  /** Whether nothing is followed by a record that goes in front of it. */
  ghost predicate Ordered(events: seq<Envelope>) {
    forall i, j :: 0 <= i < j < |events| ==> InFront(events[i], events[j])
  }

  /** What the merge takes next is in front of everything left. */
  lemma NextIsInFront(events: seq<Envelope>, j: nat)
    requires InTime(events) && j < |events| && j != Next(events)
    ensures InFront(events[Next(events)], events[j])
  {
    var i := Next(events);
    assert events[j].stream == events[j].stream;
    var head := HeadExists(events, events[j].stream, |events|);
    assert IsHead(events, head);
    assert head == j || Earlier(events, head, j);
    assert AtOrBefore(PlacedOf(events[head]), PlacedOf(events[j]));
  }

  lemma WithoutIsInTime(events: seq<Envelope>, k: nat)
    requires InTime(events) && k < |events|
    ensures InTime(Without(events, k))
  {
    var left := Without(events, k);
    forall i, j | 0 <= i < |left| && 0 <= j < |left| && left[i].stream == left[j].stream && Earlier(left, i, j)
      ensures left[i].ts <= left[j].ts
    {
      var a, b := if i < k then i else i + 1, if j < k then j else j + 1;
      assert Earlier(events, a, b);
    }
  }

  lemma WithoutKeepsTheRest(events: seq<Envelope>, k: nat)
    requires k < |events|
    ensures multiset(events) == multiset{events[k]} + multiset(Without(events, k))
  {
    assert events == events[..k] + [events[k]] + events[k + 1..];
  }

  /** The merge loses nothing and adds nothing. */
  lemma {:induction false} MergedIsPermutation(events: seq<Envelope>)
    ensures multiset(Merged(events)) == multiset(events)
    decreases |events|
  {
    if events != [] {
      var i := Next(events);
      var left := Without(events, i);
      MergedIsPermutation(left);
      WithoutKeepsTheRest(events, i);
      assert Merged(events) == [events[i]] + Merged(left);
    }
  }

  lemma {:induction false} MergedIsOrdered(events: seq<Envelope>)
    requires InTime(events)
    ensures Ordered(Merged(events))
    decreases |events|
  {
    if events != [] {
      var i := Next(events);
      var left := Without(events, i);
      WithoutIsInTime(events, i);
      MergedIsOrdered(left);
      MergedIsPermutation(left);
      forall k | 0 <= k < |Merged(left)| ensures InFront(events[i], Merged(left)[k]) {
        LeftIsBehind(events, i, left, Merged(left)[k]);
      }
      OrderedOneMore(events[i], Merged(left), Merged(events));
    }
  }

  lemma LeftIsBehind(events: seq<Envelope>, i: nat, left: seq<Envelope>, event: Envelope)
    requires InTime(events) && events != [] && i == Next(events) && left == Without(events, i)
    requires event in multiset(left)
    ensures InFront(events[i], event)
  {
    assert event in left;
    var k :| 0 <= k < |left| && left[k] == event;
    NextIsInFront(events, if k < i then k else k + 1);
  }

  lemma OrderedOneMore(first: Envelope, rest: seq<Envelope>, all: seq<Envelope>)
    requires all == [first] + rest && Ordered(rest) && forall k :: 0 <= k < |rest| ==> InFront(first, rest[k])
    ensures Ordered(all)
  {
    forall i, j | 0 <= i < j < |all| ensures InFront(all[i], all[j]) {
      if i > 0 {
        assert InFront(rest[i - 1], rest[j - 1]);
      }
    }
  }

  // ---- any store ---------------------------------------------------------

  /** Whether no stream numbers a record of `later` below one of `front`. */
  ghost predicate NumbersOrdered(front: seq<Envelope>, later: seq<Envelope>) {
    forall i, j :: 0 <= i < |front| && 0 <= j < |later| && front[i].stream == later[j].stream ==>
      front[i].number <= later[j].number
  }

  /** Whether a stream has nothing in `order` from `k` on. */
  ghost predicate SpentAt(order: seq<Envelope>, k: nat, stream: nat) {
    forall m :: k <= m < |order| ==> order[m].stream != stream
  }

  /** Whether no stream, once it has nothing left in `x`, has its next in `y` placed before what `x` still holds. */
  ghost predicate NothingOvertakes(x: seq<Envelope>, y: seq<Envelope>) {
    forall k: nat, q: nat :: k < |x| && FirstOfStream(y, q) && SpentAt(x, k, y[q].stream) ==>
      AtOrBefore(PlacedOf(x[k]), PlacedOf(y[q]))
  }

  /** Whether the merge keeps the one part ahead of the other. */
  ghost predicate StandsApart(front: seq<Envelope>, later: seq<Envelope>) {
    NumbersOrdered(front, later) && NothingOvertakes(Merged(front), Merged(later))
  }

  lemma {:induction false} OfStreamJoins(a: seq<Envelope>, b: seq<Envelope>, stream: nat)
    ensures OfStream(a + b, stream) == OfStream(a, stream) + OfStream(b, stream)
  {
    if a == [] {
      assert a + b == b;
    } else {
      assert (a + b)[1..] == a[1..] + b;
      OfStreamJoins(a[1..], b, stream);
    }
  }

  lemma {:induction false} OfStreamIs(events: seq<Envelope>, stream: nat, event: Envelope)
    ensures event in OfStream(events, stream) <==> event in events && event.stream == stream
  {
    if events != [] {
      OfStreamIs(events[1..], stream, event);
      assert events == [events[0]] + events[1..];
    }
  }

  /** Where each stream's numbers are ordered, all are. */
  lemma OrderedStreamByStream(front: seq<Envelope>, later: seq<Envelope>)
    requires forall stream :: Below(NumberOf, OfStream(front, stream), OfStream(later, stream))
    ensures NumbersOrdered(front, later)
  {
    forall i, j | 0 <= i < |front| && 0 <= j < |later| && front[i].stream == later[j].stream
      ensures front[i].number <= later[j].number
    {
      BelowInStream(front, later, i, j);
    }
  }

  lemma StreamIsBelow(front: seq<Envelope>, later: seq<Envelope>, stream: nat)
    requires NumbersOrdered(front, later)
    ensures Below(NumberOf, OfStream(front, stream), OfStream(later, stream))
  {
    var a, b := OfStream(front, stream), OfStream(later, stream);
    forall i, j | 0 <= i < |a| && 0 <= j < |b| ensures NumberOf(a[i]) <= NumberOf(b[j]) {
      OfStreamIs(front, stream, a[i]);
      OfStreamIs(later, stream, b[j]);
    }
  }

  lemma BelowInStream(front: seq<Envelope>, later: seq<Envelope>, i: nat, j: nat)
    requires i < |front| && j < |later| && front[i].stream == later[j].stream
    requires Below(NumberOf, OfStream(front, front[i].stream), OfStream(later, front[i].stream))
    ensures front[i].number <= later[j].number
  {
    var stream := front[i].stream;
    OfStreamIs(front, stream, front[i]);
    OfStreamIs(later, stream, later[j]);
    var a, b := OfStream(front, stream), OfStream(later, stream);
    var p :| 0 <= p < |a| && a[p] == front[i];
    var q :| 0 <= q < |b| && b[q] == later[j];
    assert NumberOf(a[p]) <= NumberOf(b[q]);
  }

  /** Where they are, each stream's queue over both parts is its two queues joined. */
  lemma QueueSplits(front: seq<Envelope>, later: seq<Envelope>, stream: nat)
    requires NumbersOrdered(front, later)
    ensures Queue(front + later, stream) == Queue(front, stream) + Queue(later, stream)
  {
    OfStreamJoins(front, later, stream);
    StreamIsBelow(front, later, stream);
    SortSplits(NumberOf, OfStream(front, stream), OfStream(later, stream));
  }

  lemma StreamKeepsElements(a: seq<Envelope>, b: seq<Envelope>, stream: nat)
    requires multiset(a) == multiset(b)
    ensures multiset(OfStream(a, stream)) == multiset(OfStream(b, stream))
  {
    forall event ensures multiset(OfStream(a, stream))[event] == multiset(OfStream(b, stream))[event] {
      StreamCounts(a, stream, event);
      StreamCounts(b, stream, event);
    }
  }

  lemma {:induction false} StreamCounts(events: seq<Envelope>, stream: nat, event: Envelope)
    ensures multiset(OfStream(events, stream))[event] == if event.stream == stream then multiset(events)[event] else 0
  {
    if events != [] {
      StreamCounts(events[1..], stream, event);
      assert events == [events[0]] + events[1..];
    }
  }

  /** Taking the least at each step, first over `x` and then over `y`, is what nothing overtaking means. */
  lemma {:induction false} LeastSplits(x: seq<Envelope>, y: seq<Envelope>)
    requires TakesLeast(x) && TakesLeast(y)
    ensures TakesLeast(x + y) <==> NothingOvertakes(x, y)
    decreases |x|
  {
    if x == [] {
      assert x + y == y;
    } else {
      var rest := x[1..];
      assert (x + y)[1..] == rest + y;
      LeastSplits(rest, y);
      OvertakesAtFirst(x, y);
      FirstsOfBoth(x, y);
    }
  }

  /** Whether the first of `x` is placed at or before the next in `y` of every stream with nothing in `x`. */
  ghost predicate FirstIsLeast(x: seq<Envelope>, y: seq<Envelope>)
    requires x != []
  {
    forall q: nat :: FirstOfStream(y, q) && SpentAt(x, 0, y[q].stream) ==>
      AtOrBefore(PlacedOf(x[0]), PlacedOf(y[q]))
  }

  lemma OvertakesAtFirst(x: seq<Envelope>, y: seq<Envelope>)
    requires x != []
    ensures NothingOvertakes(x, y) <==> FirstIsLeast(x, y) && NothingOvertakes(x[1..], y)
  {
    var rest := x[1..];
    if FirstIsLeast(x, y) && NothingOvertakes(rest, y) {
      forall k: nat, q: nat | k < |x| && FirstOfStream(y, q) && SpentAt(x, k, y[q].stream)
        ensures AtOrBefore(PlacedOf(x[k]), PlacedOf(y[q]))
      {
        if k > 0 {
          assert SpentAt(rest, k - 1, y[q].stream);
        }
      }
    }
    if NothingOvertakes(x, y) {
      forall k: nat, q: nat | k < |rest| && FirstOfStream(y, q) && SpentAt(rest, k, y[q].stream)
        ensures AtOrBefore(PlacedOf(rest[k]), PlacedOf(y[q]))
      {
        SpentLater(x, k, y[q].stream);
        assert x[k + 1] == rest[k];
      }
    }
  }

  lemma SpentLater(x: seq<Envelope>, k: nat, stream: nat)
    requires x != [] && SpentAt(x[1..], k, stream)
    ensures SpentAt(x, k + 1, stream)
  {
    forall m | k + 1 <= m < |x| ensures x[m].stream != stream {
      assert x[m] == x[1..][m - 1];
    }
  }

  lemma FirstsOfBoth(x: seq<Envelope>, y: seq<Envelope>)
    requires x != [] && TakesLeast(x)
    ensures (forall q: nat :: FirstOfStream(x + y, q) ==> AtOrBefore(PlacedOf((x + y)[0]), PlacedOf((x + y)[q]))) <==>
              FirstIsLeast(x, y)
  {
    var both := x + y;
    if FirstIsLeast(x, y) {
      forall q: nat | FirstOfStream(both, q) ensures AtOrBefore(PlacedOf(both[0]), PlacedOf(both[q])) {
        FirstIsInOne(x, y, q);
      }
    }
    if forall q: nat :: FirstOfStream(both, q) ==> AtOrBefore(PlacedOf(both[0]), PlacedOf(both[q])) {
      forall q: nat | FirstOfStream(y, q) && SpentAt(x, 0, y[q].stream)
        ensures AtOrBefore(PlacedOf(x[0]), PlacedOf(y[q]))
      {
        assert both[|x| + q] == y[q];
        assert FirstOfStream(both, |x| + q);
      }
    }
  }

  lemma FirstIsInOne(x: seq<Envelope>, y: seq<Envelope>, q: nat)
    requires FirstOfStream(x + y, q)
    ensures q < |x| ==> FirstOfStream(x, q) && (x + y)[q] == x[q]
    ensures q >= |x| ==> (x + y)[q] == y[q - |x|] && FirstOfStream(y, q - |x|) && SpentAt(x, 0, y[q - |x|].stream)
  {
    var both := x + y;
    assert forall k :: 0 <= k < |x| ==> both[k] == x[k];
    assert forall k :: 0 <= k < |y| ==> both[|x| + k] == y[k];
  }

  /** What starts an order that takes the least takes it too, and so does what ends one. */
  lemma {:induction false} PartsTakeLeast(x: seq<Envelope>, y: seq<Envelope>)
    requires TakesLeast(x + y)
    ensures TakesLeast(x) && TakesLeast(y)
    decreases |x|
  {
    if x == [] {
      assert x + y == y;
    } else {
      var both := x + y;
      assert both[1..] == x[1..] + y;
      PartsTakeLeast(x[1..], y);
      forall q: nat | FirstOfStream(x, q) ensures AtOrBefore(PlacedOf(x[0]), PlacedOf(x[q])) {
        assert both[q] == x[q];
        assert FirstOfStream(both, q);
      }
    }
  }

  /**
   However a merge is cut, where the first part holds just the first records the parts are those
   records' own merges.
   */
  lemma AnySplitIsTheMerges(x: seq<Envelope>, y: seq<Envelope>, front: seq<Envelope>, later: seq<Envelope>)
    requires Merged(front + later) == x + y && multiset(x) == multiset(front)
    ensures x == Merged(front) && y == Merged(later)
    ensures StandsApart(front, later)
  {
    MergedIsPermutation(front + later);
    SplitCancels(x, y, front, later);
    CutOrdersNumbers(x, y, front, later);
    MergeTakesLeast(front + later);
    PartsTakeLeast(x, y);
    forall stream
      ensures OfStream(x, stream) == OfStream(Merged(front), stream)
      ensures OfStream(y, stream) == OfStream(Merged(later), stream)
    {
      StreamsOfTheParts(x, y, front, later, stream);
    }
    MergeTakesLeast(front);
    MergeTakesLeast(later);
    MergeIsTheOnlyOrder(x, Merged(front));
    MergeIsTheOnlyOrder(y, Merged(later));
    LeastSplits(x, y);
  }

  lemma SplitCancels<T>(x: seq<T>, y: seq<T>, front: seq<T>, later: seq<T>)
    requires multiset(x + y) == multiset(front + later) && multiset(x) == multiset(front)
    ensures multiset(y) == multiset(later)
  {
    assert multiset(x + y) == multiset(x) + multiset(y) && multiset(front + later) == multiset(front) + multiset(later);
    assert multiset(y) == multiset(x + y) - multiset(x);
  }

  lemma CutOrdersNumbers(x: seq<Envelope>, y: seq<Envelope>, front: seq<Envelope>, later: seq<Envelope>)
    requires Merged(front + later) == x + y && multiset(x) == multiset(front) && multiset(y) == multiset(later)
    ensures NumbersOrdered(front, later)
  {
    forall stream ensures Below(NumberOf, OfStream(front, stream), OfStream(later, stream)) {
      MergeKeepsEachStream(front + later, stream);
      StableSorts(NumberOf, OfStream(front + later, stream));
      OfStreamJoins(x, y, stream);
      StreamKeepsElements(x, front, stream);
      StreamKeepsElements(y, later, stream);
      CutIsBelow(NumberOf, OfStream(x, stream), OfStream(y, stream), OfStream(front, stream), OfStream(later, stream));
    }
    OrderedStreamByStream(front, later);
  }

  lemma StreamsOfTheParts(
    x: seq<Envelope>, y: seq<Envelope>, front: seq<Envelope>, later: seq<Envelope>, stream: nat
  )
    requires Merged(front + later) == x + y && multiset(x) == multiset(front) && NumbersOrdered(front, later)
    ensures OfStream(x, stream) == OfStream(Merged(front), stream)
    ensures OfStream(y, stream) == OfStream(Merged(later), stream)
  {
    MergeKeepsEachStream(front + later, stream);
    QueueSplits(front, later, stream);
    OfStreamJoins(x, y, stream);
    MergeKeepsEachStream(front, stream);
    MergeKeepsEachStream(later, stream);
    StreamKeepsElements(x, front, stream);
    StableSorts(NumberOf, OfStream(front, stream));
    SameFront(OfStream(x, stream), OfStream(y, stream), Queue(front, stream), Queue(later, stream),
      OfStream(front, stream));
  }

  lemma SameFront<T>(a: seq<T>, b: seq<T>, c: seq<T>, d: seq<T>, elements: seq<T>)
    requires a + b == c + d && multiset(a) == multiset(elements) == multiset(c)
    ensures a == c && b == d
  {
    assert |a| == |multiset(a)| == |multiset(c)| == |c|;
    assert a == (a + b)[..|a|] && c == (c + d)[..|c|];
    assert b == (a + b)[|a|..] && d == (c + d)[|c|..];
  }

  /**
   Of any store, out of time or not: the merge of two parts is the two merges exactly where
   no stream's numbers go back between them, and no stream that has run out in the first has
   its next in the second placed before what the first has left.
   */
  lemma SplitsExactly(front: seq<Envelope>, later: seq<Envelope>)
    ensures Merged(front + later) == Merged(front) + Merged(later) <==> StandsApart(front, later)
  {
    if Merged(front + later) == Merged(front) + Merged(later) {
      MergedIsPermutation(front);
      AnySplitIsTheMerges(Merged(front), Merged(later), front, later);
    }
    if StandsApart(front, later) {
      ApartMergesApart(front, later);
    }
  }

  lemma ApartMergesApart(front: seq<Envelope>, later: seq<Envelope>)
    requires StandsApart(front, later)
    ensures Merged(front + later) == Merged(front) + Merged(later)
  {
    var x, y, all := Merged(front), Merged(later), Merged(front + later);
    MergeTakesLeast(front);
    MergeTakesLeast(later);
    MergeTakesLeast(front + later);
    LeastSplits(x, y);
    forall stream ensures OfStream(all, stream) == OfStream(x + y, stream) {
      MergeKeepsEachStream(front, stream);
      MergeKeepsEachStream(later, stream);
      MergeKeepsEachStream(front + later, stream);
      QueueSplits(front, later, stream);
      OfStreamJoins(x, y, stream);
    }
    MergeIsTheOnlyOrder(all, x + y);
  }

  // ---- a store in time ---------------------------------------------------

  /** An ordered sequence cut in two has the one part in front of the other, whatever orders those parts had. */
  lemma CutIsInFront(x: seq<Envelope>, y: seq<Envelope>, front: seq<Envelope>, later: seq<Envelope>)
    requires Ordered(x + y) && multiset(x) == multiset(front) && multiset(y) == multiset(later)
    ensures AllInFront(front, later)
  {
    forall i, j | 0 <= i < |front| && 0 <= j < |later| ensures InFront(front[i], later[j]) {
      assert front[i] in multiset(x) && later[j] in multiset(y);
      var a :| 0 <= a < |x| && x[a] == front[i];
      var b :| 0 <= b < |y| && y[b] == later[j];
      assert (x + y)[a] == front[i] && (x + y)[|x| + b] == later[j];
    }
  }

  /**
   Where each stream's stamps follow its numbers, that is exactly that every later record is in front
   of no earlier.
   */
  lemma ApartInTime(front: seq<Envelope>, later: seq<Envelope>)
    requires InTime(front + later)
    ensures StandsApart(front, later) <==> AllInFront(front, later)
  {
    SplitsExactly(front, later);
    if AllInFront(front, later) {
      MergeSplits(front, later);
    }
    if StandsApart(front, later) {
      MergedIsOrdered(front + later);
      MergedIsPermutation(front);
      MergedIsPermutation(later);
      CutIsInFront(Merged(front), Merged(later), front, later);
    }
  }

  /**
   Of a store whose streams are not in time, a record behind the marker may yet merge where
   it is: one queued behind its own stream's later stamp goes no earlier for its own.
   */
  lemma OutOfTimeMayStillSplit(a: Envelope, b: Envelope)
    requires a.stream == b.stream && a.number < b.number && b.ts < a.ts
    ensures !InFront(a, b) && !InTime([a, b])
    ensures Merged([a, b]) == Merged([a]) + Merged([b]) == [a, b]
  {
    var both := [a, b];
    assert Earlier(both, 0, 1);
    assert IsHead(both, 0) && !IsHead(both, 1);
    assert Without(both, 0) == [b];
    OneMerges(a);
    OneMerges(b);
  }

  lemma OneMerges(event: Envelope)
    ensures Merged([event]) == [event]
  {
    assert Without([event], 0) == [];
  }
}
