/**
 What makes a covered prefix of the merge order final (src/checkpoint.rs, "The
 hazard the coverage marker answers"), and what the merge order is of a store.
 */
module MergeSplit {
  import opened Journal
  import opened Merging

  /** Whether `a` is placed no later than `b` and, within a stream, numbered no later. */
  predicate InFront(a: Envelope, b: Envelope) {
    && AtOrBefore(PlacedOf(a), PlacedOf(b))
    && (a.stream == b.stream ==> a.number <= b.number)
  }

  ghost predicate AllInFront(front: seq<Envelope>, later: seq<Envelope>) {
    forall i, j :: 0 <= i < |front| && 0 <= j < |later| ==> InFront(front[i], later[j])
  }

  /** While any of `front` is queued, no record of `later` wins. */
  lemma FrontGoesFirst(front: seq<Envelope>, later: seq<Envelope>)
    requires AllInFront(front, later) && front != []
    ensures Next(front + later) == Next(front)
  {
    var events := front + later;
    var i := Next(front);
    forall j | 0 <= j < |events| && j != i && events[j].stream == events[i].stream
      ensures Earlier(events, i, j)
    {
      if j < |front| {
        assert Earlier(front, i, j);
      } else {
        assert InFront(front[i], later[j - |front|]);
      }
    }
    forall j: nat | IsHead(events, j)
      ensures AtOrBefore(PlacedOf(events[i]), PlacedOf(events[j]))
    {
      if j < |front| {
        assert forall k :: 0 <= k < |front| && k != j && front[k].stream == front[j].stream ==> Earlier(events, j, k);
        assert IsHead(front, j);
      } else {
        assert InFront(front[i], later[j - |front|]);
      }
    }
    NextIsUnique(events, i, Next(events));
  }

  lemma FewerInFront(front: seq<Envelope>, later: seq<Envelope>, i: nat)
    requires AllInFront(front, later) && i < |front|
    ensures AllInFront(Without(front, i), later)
  {
  }

  /** The union equation: with all of `later` behind `front`, merging both is merging each in turn. */
  lemma {:induction false} MergeSplits(front: seq<Envelope>, later: seq<Envelope>)
    requires AllInFront(front, later)
    ensures Merged(front + later) == Merged(front) + Merged(later)
    decreases |front|
  {
    if front == [] {
      assert front + later == later;
    } else {
      FrontGoesFirst(front, later);
      var i := Next(front);
      var left := Without(front, i);
      assert Without(front + later, i) == left + later;
      FewerInFront(front, later, i);
      MergeSplits(left, later);
      assert ([front[i]] + Merged(left)) + Merged(later) == [front[i]] + (Merged(left) + Merged(later));
    }
  }

  // ---- what the order is -------------------------------------------------

  /** Each stream leaves the merge in its own `seq`, a tie as it arrived: none lost, none added. */
  lemma {:induction false} MergeKeepsEachStream(events: seq<Envelope>, stream: nat)
    ensures OfStream(Merged(events), stream) == Queue(events, stream)
    decreases |events|
  {
    if events != [] {
      var i := Next(events);
      var left := Without(events, i);
      MergeKeepsEachStream(left, stream);
      assert Merged(events)[1..] == Merged(left);
      HeadIsFront(events, i);
      if events[i].stream == stream {
        var j := FrontIsHead(events, stream);
        HeadIsUnique(events, i, j);
      } else {
        OthersKeepTheirQueue(events, i, stream);
      }
    }
  }

  ghost predicate FirstOfStream(merged: seq<Envelope>, q: nat) {
    q < |merged| && forall k :: 0 <= k < q ==> merged[k].stream != merged[q].stream
  }

  /** Whether every record taken is placed at or before the next each stream had left to give. */
  ghost predicate TakesLeast(merged: seq<Envelope>)
    decreases |merged|
  {
    merged == [] ||
    ((forall q: nat :: FirstOfStream(merged, q) ==> AtOrBefore(PlacedOf(merged[0]), PlacedOf(merged[q])))
     && TakesLeast(merged[1..]))
  }

  lemma {:induction false} FirstIsFront(merged: seq<Envelope>, q: nat)
    requires FirstOfStream(merged, q)
    ensures OfStream(merged, merged[q].stream) != [] && OfStream(merged, merged[q].stream)[0] == merged[q]
  {
    if q > 0 {
      assert merged[0].stream != merged[q].stream;
      FirstIsFront(merged[1..], q - 1);
    }
  }

  lemma {:induction false} FrontIsFirst(merged: seq<Envelope>, stream: nat) returns (q: nat)
    requires OfStream(merged, stream) != []
    ensures FirstOfStream(merged, q) && merged[q] == OfStream(merged, stream)[0] && merged[q].stream == stream
  {
    if merged[0].stream == stream {
      q := 0;
    } else {
      q := FrontIsFirst(merged[1..], stream);
      q := q + 1;
    }
  }

  lemma {:induction false} MergeTakesLeast(events: seq<Envelope>)
    ensures TakesLeast(Merged(events))
    decreases |events|
  {
    if events != [] {
      var merged := Merged(events);
      var i := Next(events);
      assert merged[1..] == Merged(Without(events, i));
      forall q: nat | FirstOfStream(merged, q)
        ensures AtOrBefore(PlacedOf(merged[0]), PlacedOf(merged[q]))
      {
        FirstIsFront(merged, q);
        MergeKeepsEachStream(events, merged[q].stream);
        var j := FrontIsHead(events, merged[q].stream);
      }
      MergeTakesLeast(Without(events, i));
    }
  }

  lemma StreamOfRest(merged: seq<Envelope>, stream: nat)
    requires merged != []
    ensures OfStream(merged[1..], stream)
         == if merged[0].stream == stream then OfStream(merged, stream)[1..] else OfStream(merged, stream)
  {
  }

  /** The two facts above leave one order: `merge_order` is the only one that meets both. */
  lemma {:induction false} MergeIsTheOnlyOrder(a: seq<Envelope>, b: seq<Envelope>)
    requires forall stream :: OfStream(a, stream) == OfStream(b, stream)
    requires TakesLeast(a) && TakesLeast(b)
    ensures a == b
    decreases |a|
  {
    assert b != [] ==> OfStream(a, b[0].stream) == OfStream(b, b[0].stream);
    if a != [] {
      assert OfStream(a, a[0].stream) == OfStream(b, a[0].stream);
      var q := FrontIsFirst(b, a[0].stream);
      var p := FrontIsFirst(a, b[0].stream);
      assert a[0] == b[q] && b[0] == a[p];
      assert a[0].stream == b[0].stream;
      assert a[0] == b[0];
      forall stream ensures OfStream(a[1..], stream) == OfStream(b[1..], stream) {
        assert OfStream(a, stream) == OfStream(b, stream);
        StreamOfRest(a, stream);
        StreamOfRest(b, stream);
      }
      MergeIsTheOnlyOrder(a[1..], b[1..]);
      assert a == [a[0]] + a[1..] && b == [b[0]] + b[1..];
    }
  }
}
