/**
 `merge_order` (src/journal.rs): the streams of a store merged into one sequence, none of
 them reordered against its own `seq`.

 `Merged` states the order by what may go next of the records left, in arrival
 order; `MergeOrder` is the k-way merge over per-stream queues that computes it.
 */
module Merging {
  import opened Journal
  import opened Sorting
  import opened Wrappers

  /** Whether position `i` leaves its own stream before `j` does. */
  predicate Earlier(rest: seq<Envelope>, i: nat, j: nat)
    requires i < |rest| && j < |rest|
  {
    rest[i].number < rest[j].number || (rest[i].number == rest[j].number && i < j)
  }

  /** Whether `i` is the next its stream has to give. */
  ghost predicate IsHead(rest: seq<Envelope>, i: nat) {
    i < |rest| &&
    forall j :: 0 <= j < |rest| && j != i && rest[j].stream == rest[i].stream ==> Earlier(rest, i, j)
  }

  /** Whether `i` is what the merge takes next: the head placed least. */
  ghost predicate IsNext(rest: seq<Envelope>, i: nat) {
    IsHead(rest, i) &&
    forall j: nat :: IsHead(rest, j) ==> AtOrBefore(PlacedOf(rest[i]), PlacedOf(rest[j]))
  }

  lemma {:induction false} HeadExists(rest: seq<Envelope>, stream: nat, n: nat) returns (i: nat)
    requires 0 < n <= |rest| && exists k :: 0 <= k < n && rest[k].stream == stream
    ensures i < n && rest[i].stream == stream
    ensures forall j :: 0 <= j < n && j != i && rest[j].stream == stream ==> Earlier(rest, i, j)
  {
    if exists k :: 0 <= k < n - 1 && rest[k].stream == stream {
      i := HeadExists(rest, stream, n - 1);
      if rest[n - 1].stream == stream && Earlier(rest, n - 1, i) {
        i := n - 1;
      }
    } else {
      i := n - 1;
    }
  }

  lemma {:induction false} LeastExists(rest: seq<Envelope>, heads: set<nat>) returns (i: nat)
    requires heads != {} && forall j :: j in heads ==> j < |rest|
    ensures i in heads
    ensures forall j :: j in heads ==> AtOrBefore(PlacedOf(rest[i]), PlacedOf(rest[j]))
    decreases |heads|
  {
    i :| i in heads;
    if heads != {i} {
      var least := LeastExists(rest, heads - {i});
      assert forall j :: j in heads ==> j == i || j in heads - {i};
      if AtOrBefore(PlacedOf(rest[least]), PlacedOf(rest[i])) {
        i := least;
      }
    }
  }

  lemma NextExists(rest: seq<Envelope>)
    requires rest != []
    ensures exists i: nat :: IsNext(rest, i)
  {
    assert rest[0].stream == rest[0].stream;
    var head := HeadExists(rest, rest[0].stream, |rest|);
    var heads := set i: nat | i < |rest| && IsHead(rest, i);
    assert head in heads;
    var i := LeastExists(rest, heads);
    forall j: nat | IsHead(rest, j) ensures AtOrBefore(PlacedOf(rest[i]), PlacedOf(rest[j])) {
      assert j in heads;
    }
    assert IsNext(rest, i);
  }

  lemma NextIsUnique(rest: seq<Envelope>, i: nat, j: nat)
    requires IsNext(rest, i) && IsNext(rest, j)
    ensures i == j
  {
  }

  ghost function Next(rest: seq<Envelope>): (i: nat)
    requires rest != []
    ensures IsNext(rest, i)
  {
    NextExists(rest);
    var i: nat :| IsNext(rest, i);
    i
  }

  function Without<T>(xs: seq<T>, i: nat): (r: seq<T>)
    requires i < |xs|
    ensures |r| == |xs| - 1
    ensures forall k :: 0 <= k < |r| ==> r[k] == xs[if k < i then k else k + 1]
  {
    xs[..i] + xs[i + 1..]
  }

  /** A store's records in merge order. */
  ghost function Merged(rest: seq<Envelope>): (merged: seq<Envelope>)
    ensures |merged| == |rest|
    decreases |rest|
  {
    if rest == [] then [] else [rest[Next(rest)]] + Merged(Without(rest, Next(rest)))
  }

  // ---- the k-way merge over queues --------------------------------------

  function NumberOf(event: Envelope): nat {
    event.number
  }

  /** One stream's records, as they arrived. */
  function OfStream(events: seq<Envelope>, stream: nat): seq<Envelope> {
    if events == [] then []
    else (if events[0].stream == stream then [events[0]] else []) + OfStream(events[1..], stream)
  }

  /** One stream's records, in the order the stream gives them. */
  function Queue(events: seq<Envelope>, stream: nat): seq<Envelope> {
    StableSort(NumberOf, OfStream(events, stream))
  }

  lemma {:induction false} ArrivesLast(events: seq<Envelope>, event: Envelope, stream: nat)
    ensures OfStream(events + [event], stream)
         == OfStream(events, stream) + (if event.stream == stream then [event] else [])
  {
    if events == [] {
      assert [] + [event] == [event];
    } else {
      assert (events + [event])[1..] == events[1..] + [event];
      ArrivesLast(events[1..], event, stream);
    }
  }

  lemma {:induction false} QueueUnfolds(events: seq<Envelope>, stream: nat)
    requires events != []
    ensures Queue(events, stream) ==
            if events[0].stream == stream then Insert(NumberOf, events[0], Queue(events[1..], stream))
            else Queue(events[1..], stream)
  {
    var rest := OfStream(events[1..], stream);
    assert ([events[0]] + rest)[1..] == rest;
    assert [] + rest == rest;
  }

  lemma {:induction false} QueueBounds(events: seq<Envelope>, stream: nat, k: nat)
    requires k < |events| && events[k].stream == stream
    ensures Queue(events, stream) != [] && Queue(events, stream)[0].number <= events[k].number
    decreases |events|
  {
    QueueUnfolds(events, stream);
    if k > 0 {
      QueueBounds(events[1..], stream, k - 1);
    }
  }

  lemma FirstIsHead(events: seq<Envelope>, stream: nat)
    requires events != [] && events[0].stream == stream
    requires Queue(events[1..], stream) == [] || events[0].number <= Queue(events[1..], stream)[0].number
    ensures IsHead(events, 0)
  {
    forall j | 0 <= j < |events| && j != 0 && events[j].stream == stream ensures Earlier(events, 0, j) {
      QueueBounds(events[1..], stream, j - 1);
    }
  }

  lemma HeadBehindFirst(events: seq<Envelope>, k: nat)
    requires events != [] && IsHead(events[1..], k)
    requires events[0].stream == events[k + 1].stream ==> events[k + 1].number < events[0].number
    ensures IsHead(events, k + 1)
  {
    forall j | 0 <= j < |events| && j != k + 1 && events[j].stream == events[k + 1].stream
      ensures Earlier(events, k + 1, j)
    {
      if j > 0 {
        assert Earlier(events[1..], k, j - 1);
      }
    }
  }

  lemma WithoutBehindFirst(events: seq<Envelope>, k: nat, stream: nat)
    requires events != [] && k < |events| - 1
    ensures Queue(Without(events, k + 1), stream) ==
            if events[0].stream == stream then Insert(NumberOf, events[0], Queue(Without(events[1..], k), stream))
            else Queue(Without(events[1..], k), stream)
  {
    var left := Without(events, k + 1);
    assert left[1..] == Without(events[1..], k);
    QueueUnfolds(left, stream);
  }

  /** The front of a stream's queue is its head, and the rest of the queue is the queue of the rest. */
  lemma {:induction false} FrontIsHead(events: seq<Envelope>, stream: nat) returns (i: nat)
    requires Queue(events, stream) != []
    ensures IsHead(events, i) && events[i] == Queue(events, stream)[0] && events[i].stream == stream
    ensures Queue(Without(events, i), stream) == Queue(events, stream)[1..]
    decreases |events|
  {
    assert events != [];
    var rest := events[1..];
    QueueUnfolds(events, stream);
    var below := Queue(rest, stream);
    if events[0].stream == stream && (below == [] || events[0].number <= below[0].number) {
      i := 0;
      FirstIsHead(events, stream);
      assert Without(events, 0) == rest;
    } else {
      var k := FrontIsHead(rest, stream);
      i := k + 1;
      HeadBehindFirst(events, k);
      WithoutBehindFirst(events, k, stream);
    }
  }

  lemma {:induction false} OthersKeepTheirQueue(events: seq<Envelope>, i: nat, other: nat)
    requires i < |events| && events[i].stream != other
    ensures Queue(Without(events, i), other) == Queue(events, other)
    decreases |events|
  {
    QueueUnfolds(events, other);
    if i == 0 {
      assert Without(events, 0) == events[1..];
    } else {
      WithoutBehindFirst(events, i - 1, other);
      OthersKeepTheirQueue(events[1..], i - 1, other);
    }
  }

  lemma HeadIsUnique(events: seq<Envelope>, i: nat, j: nat)
    requires IsHead(events, i) && IsHead(events, j) && events[i].stream == events[j].stream
    ensures i == j
  {
  }

  lemma HeadIsFront(events: seq<Envelope>, i: nat)
    requires IsHead(events, i)
    ensures Queue(events, events[i].stream) != [] && Queue(events, events[i].stream)[0] == events[i]
  {
    QueueBounds(events, events[i].stream, i);
    var j := FrontIsHead(events, events[i].stream);
    HeadIsUnique(events, i, j);
  }

  /** Whether the queues hold exactly the records of `rest`. */
  ghost predicate Queued(rest: seq<Envelope>, streams: map<nat, seq<Envelope>>) {
    && (forall stream :: stream in streams ==> streams[stream] == Queue(rest, stream))
    && (forall i :: 0 <= i < |rest| ==> rest[i].stream in streams)
  }

  ghost predicate Arrived(events: seq<Envelope>, streams: map<nat, seq<Envelope>>) {
    && (forall stream :: stream in streams ==> streams[stream] == OfStream(events, stream))
    && (forall stream :: stream !in streams ==> OfStream(events, stream) == [])
  }

  lemma ArrivesNext(events: seq<Envelope>, event: Envelope, streams: map<nat, seq<Envelope>>)
    requires Arrived(events, streams)
    ensures Arrived(events + [event],
                    streams[event.stream := (if event.stream in streams then streams[event.stream] else []) + [event]])
  {
    forall stream {
      ArrivesLast(events, event, stream);
    }
  }

  lemma {:induction false} NoneOfStream(events: seq<Envelope>, i: nat)
    requires i < |events|
    ensures OfStream(events, events[i].stream) != []
  {
    if i > 0 {
      NoneOfStream(events[1..], i - 1);
    }
  }

  method Queues(events: seq<Envelope>) returns (streams: map<nat, seq<Envelope>>)
    ensures Queued(events, streams)
  {
    streams := map[];
    for index := 0 to |events|
      invariant Arrived(events[..index], streams)
    {
      var event := events[index];
      ArrivesNext(events[..index], event, streams);
      assert events[..index + 1] == events[..index] + [event];
      var queue := if event.stream in streams then streams[event.stream] else [];
      streams := streams[event.stream := queue + [event]];
    }
    assert events[..|events|] == events;
    forall i | 0 <= i < |events| ensures events[i].stream in streams {
      NoneOfStream(events, i);
    }
    var unsorted := streams.Keys;
    while unsorted != {}
      invariant unsorted <= streams.Keys
      invariant forall i :: 0 <= i < |events| ==> events[i].stream in streams
      invariant forall stream :: stream in streams ==>
                  streams[stream] == if stream in unsorted then OfStream(events, stream) else Queue(events, stream)
    {
      var stream :| stream in unsorted;
      streams := streams[stream := StableSort(NumberOf, streams[stream])];
      unsorted := unsorted - {stream};
    }
  }

  /** Whether `least` is the stream, of `seen`, whose front is placed least. */
  ghost predicate LeastFront(streams: map<nat, seq<Envelope>>, seen: set<nat>, least: nat) {
    && least in streams && least in seen && streams[least] != []
    && forall stream :: stream in streams && stream in seen && streams[stream] != [] ==>
         AtOrBefore(PlacedOf(streams[least][0]), PlacedOf(streams[stream][0]))
  }

  ghost predicate AllEmpty(streams: map<nat, seq<Envelope>>, seen: set<nat>) {
    forall stream :: stream in streams && stream in seen ==> streams[stream] == []
  }

  /** The stream whose front is placed least, of those that have one. */
  method LeastStream(streams: map<nat, seq<Envelope>>) returns (least: Option<nat>)
    ensures least.None? ==> AllEmpty(streams, streams.Keys)
    ensures least.Some? ==> LeastFront(streams, streams.Keys, least.value)
  {
    least := None;
    var unseen := streams.Keys;
    while unseen != {}
      invariant unseen <= streams.Keys
      invariant least.None? ==> AllEmpty(streams, streams.Keys - unseen)
      invariant least.Some? ==> LeastFront(streams, streams.Keys - unseen, least.value)
    {
      var stream :| stream in unseen;
      unseen := unseen - {stream};
      if streams[stream] != [] &&
         (least.None? || AtOrBefore(PlacedOf(streams[stream][0]), PlacedOf(streams[least.value][0])))
      {
        least := Some(stream);
      }
    }
  }

  lemma PoppedIsQueued(rest: seq<Envelope>, streams: map<nat, seq<Envelope>>, least: nat, i: nat)
    requires Queued(rest, streams) && least in streams && streams[least] != []
    requires i < |rest| && rest[i].stream == least && Queue(Without(rest, i), least) == streams[least][1..]
    ensures Queued(Without(rest, i), streams[least := streams[least][1..]])
  {
    forall other | other != least ensures Queue(Without(rest, i), other) == Queue(rest, other) {
      OthersKeepTheirQueue(rest, i, other);
    }
  }

  /** The front placed least is what the merge takes next, and taking it leaves the queues of the rest. */
  lemma LeastFrontIsNext(rest: seq<Envelope>, streams: map<nat, seq<Envelope>>, least: nat) returns (i: nat)
    requires Queued(rest, streams) && LeastFront(streams, streams.Keys, least)
    ensures rest != [] && i == Next(rest) && rest[i] == streams[least][0]
    ensures Queued(Without(rest, i), streams[least := streams[least][1..]])
  {
    i := FrontIsHead(rest, least);
    forall j: nat | IsHead(rest, j)
      ensures AtOrBefore(PlacedOf(rest[i]), PlacedOf(rest[j]))
    {
      HeadIsFront(rest, j);
    }
    NextIsUnique(rest, i, Next(rest));
    PoppedIsQueued(rest, streams, least, i);
  }

  lemma NoFrontsNoRest(rest: seq<Envelope>, streams: map<nat, seq<Envelope>>)
    requires Queued(rest, streams) && AllEmpty(streams, streams.Keys)
    ensures rest == []
  {
    if rest != [] {
      QueueBounds(rest, rest[0].stream, 0);
    }
  }

  /** What the merge keeps: the queues hold `rest`, and what is placed is the front of the whole order. */
  ghost predicate Draining(
    events: seq<Envelope>, rest: seq<Envelope>, streams: map<nat, seq<Envelope>>, merged: seq<Envelope>
  ) {
    Queued(rest, streams) && merged + Merged(rest) == Merged(events)
  }

  lemma OneMerged(rest: seq<Envelope>, merged: seq<Envelope>)
    requires rest != []
    ensures merged + Merged(rest) == (merged + [rest[Next(rest)]]) + Merged(Without(rest, Next(rest)))
  {
  }

  lemma Drained(
    events: seq<Envelope>, rest: seq<Envelope>, streams: map<nat, seq<Envelope>>, merged: seq<Envelope>, least: nat
  )
      returns (left: seq<Envelope>)
    requires Draining(events, rest, streams, merged) && LeastFront(streams, streams.Keys, least)
    ensures |left| < |rest|
    ensures Draining(events, left, streams[least := streams[least][1..]], merged + [streams[least][0]])
  {
    var i := LeastFrontIsNext(rest, streams, least);
    left := Without(rest, i);
    OneMerged(rest, merged);
  }

  /** The k-way merge over one queue a stream. */
  method MergeOrder(events: seq<Envelope>) returns (merged: seq<Envelope>)
    ensures merged == Merged(events)
  {
    var streams := Queues(events);
    merged := [];
    ghost var rest := events;
    assert [] + Merged(events) == Merged(events);
    var least := LeastStream(streams);
    while least.Some?
      invariant Draining(events, rest, streams, merged)
      invariant least.None? ==> AllEmpty(streams, streams.Keys)
      invariant least.Some? ==> LeastFront(streams, streams.Keys, least.value)
      decreases |rest|
    {
      var stream := least.value;
      rest := Drained(events, rest, streams, merged, stream);
      merged := merged + [streams[stream][0]];
      streams := streams[stream := streams[stream][1..]];
      least := LeastStream(streams);
    }
    NoFrontsNoRest(rest, streams);
    assert merged + [] == merged;
  }
}
