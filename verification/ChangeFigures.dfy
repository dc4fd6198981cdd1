/**
 The figures of a change, each told of its records without a walk over them
 (src/changes.rs, the loop of `cycle`).
 */
module ChangeFigures {
  import opened ChangeRecords
  import opened Slices
  import opened Wrappers

  lemma OneMoreAtTheEnd(before: set<nat>, now: set<nat>, n: nat)
    requires forall k: nat :: k < n ==> (k in before <==> k in now)
    requires (forall k: nat :: k in before ==> k < n) && forall k: nat :: k in now ==> k <= n
    ensures |now| == |before| + if n in now then 1 else 0
  {
    assert now == before + if n in now then {n} else {};
  }

  // ---- dispatches --------------------------------------------------------

  ghost function DispatchesIn(records: seq<Record>): set<nat> {
    set k: nat | k < |records| && records[k].node.Some? && records[k].said == Dispatched
  }

  lemma {:induction false} DispatchesAreCounted(records: seq<Record>)
    ensures DispatchCount(records) == |DispatchesIn(records)|
  {
    if records == [] {
      assert DispatchesIn(records) == {};
    } else {
      var before, last: nat := records[..|records| - 1], |records| - 1;
      DispatchesAreCounted(before);
      assert forall k: nat :: k < last ==> records[k] == before[k];
      OneMoreAtTheEnd(DispatchesIn(before), DispatchesIn(records), last);
    }
  }

  // ---- publications ------------------------------------------------------

  /** Whether a record is of its node's closeout: one of the nine kinds that publish, and not during a turn. */
  ghost predicate PublishesAt(records: seq<Record>, k: nat, lifecycle: bool)
    requires k < |records|
  {
    var said, now := records[k].said, DoingAfter(records[..k], lifecycle).now;
    && records[k].node.Some? && now.Some? && now != Some(State.Agent)
    && (said in {Published, Push, ChangeOpened, ChecksSettled, MergeQueued, SyncConflict, DraftKeptForReview}
        || said.GateRan? || said.Landed?)
  }

  /** Whether a record is the first its node publishes with since it was last dispatched. */
  ghost predicate OpensAt(records: seq<Record>, k: nat, lifecycle: bool)
    requires k < |records|
  {
    && PublishesAt(records, k, lifecycle)
    && forall j: nat :: j < k && records[j].node == records[k].node && PublishesAt(records, j, lifecycle) ==>
         RedispatchedBetween(records, j, k)
  }

  ghost predicate RedispatchedBetween(records: seq<Record>, j: nat, k: nat)
    requires j < k <= |records|
  {
    exists m: nat :: j < m < k && records[m].node == records[j].node && records[m].said == Dispatched
  }

  ghost function OpeningsIn(records: seq<Record>, lifecycle: bool): set<nat> {
    set k: nat | k < |records| && OpensAt(records, k, lifecycle)
  }

  lemma PublishesInFront(records: seq<Record>, n: nat, k: nat, lifecycle: bool)
    requires k < n <= |records|
    ensures PublishesAt(records[..n], k, lifecycle) <==> PublishesAt(records, k, lifecycle)
  {
    assert records[..n][..k] == records[..k];
  }

  lemma OpensInFront(records: seq<Record>, n: nat, k: nat, lifecycle: bool)
    requires k < n <= |records|
    ensures OpensAt(records[..n], k, lifecycle) <==> OpensAt(records, k, lifecycle)
  {
    forall j: nat | j <= k ensures PublishesAt(records[..n], j, lifecycle) <==> PublishesAt(records, j, lifecycle) {
      PublishesInFront(records, n, j, lifecycle);
    }
    forall j: nat | j < k ensures RedispatchedBetween(records[..n], j, k) <==> RedispatchedBetween(records, j, k) {
      if RedispatchedBetween(records, j, k) {
        var m: nat :| j < m < k && records[m].node == records[j].node && records[m].said == Dispatched;
        assert records[..n][m] == records[m];
      }
    }
  }

  /** Whether a node has published and not been dispatched since, told of the records. */
  ghost predicate HasPublished(records: seq<Record>, node: Id, lifecycle: bool) {
    exists j: nat :: j < |records| && records[j].node == Some(node) && PublishesAt(records, j, lifecycle)
      && !RedispatchedBetween(records, j, |records|)
  }

  lemma {:induction false} PublishingIs(records: seq<Record>, node: Id, lifecycle: bool)
    ensures Publishing(records, node, lifecycle) <==> HasPublished(records, node, lifecycle)
  {
    if records != [] {
      var n: nat := |records| - 1;
      PublishingIs(records[..n], node, lifecycle);
      HasPublishedNext(records, n, node, lifecycle);
    }
  }

  lemma HasPublishedNext(records: seq<Record>, n: nat, node: Id, lifecycle: bool)
    requires |records| == n + 1
    ensures HasPublished(records, node, lifecycle) <==>
      || (records[n].node == Some(node) && PublishesAt(records, n, lifecycle))
      || (HasPublished(records[..n], node, lifecycle)
          && !(records[n].node == Some(node) && records[n].said == Dispatched))
  {
    if HasPublished(records, node, lifecycle) {
      var j: nat :| j < |records| && records[j].node == Some(node) && PublishesAt(records, j, lifecycle)
        && !RedispatchedBetween(records, j, |records|);
      if j < n {
        PublishesInFront(records, n, j, lifecycle);
        BetweenNext(records, n, j);
        assert records[..n][j] == records[j];
      }
    }
    if HasPublished(records[..n], node, lifecycle) {
      var j: nat :| j < n && records[..n][j].node == Some(node) && PublishesAt(records[..n], j, lifecycle)
        && !RedispatchedBetween(records[..n], j, n);
      PublishesInFront(records, n, j, lifecycle);
      BetweenNext(records, n, j);
    }
    if records[n].node == Some(node) && PublishesAt(records, n, lifecycle) {
      assert !RedispatchedBetween(records, n, |records|);
    }
  }

  lemma BetweenNext(records: seq<Record>, n: nat, j: nat)
    requires |records| == n + 1 && j < n
    ensures RedispatchedBetween(records, j, |records|) <==>
      RedispatchedBetween(records[..n], j, n) || (records[n].node == records[j].node && records[n].said == Dispatched)
  {
    if RedispatchedBetween(records[..n], j, n) {
      var m: nat :| j < m < n && records[..n][m].node == records[..n][j].node && records[..n][m].said == Dispatched;
      assert records[m] == records[..n][m];
    }
    if RedispatchedBetween(records, j, |records|) {
      var m: nat :| j < m < |records| && records[m].node == records[j].node && records[m].said == Dispatched;
      assert m < n ==> records[..n][m] == records[m];
    }
  }

  /** The attempts counted are the records that open a publication: each dispatch that published, once. */
  lemma {:induction false} AttemptsAreOpenings(records: seq<Record>, lifecycle: bool)
    ensures Attempts(records, lifecycle) == |OpeningsIn(records, lifecycle)|
  {
    if records == [] {
      assert OpeningsIn(records, lifecycle) == {};
    } else {
      var n: nat := |records| - 1;
      AttemptsAreOpenings(records[..n], lifecycle);
      OpeningsNext(records, n, lifecycle);
    }
  }

  lemma OpeningsNext(records: seq<Record>, n: nat, lifecycle: bool)
    requires |records| == n + 1
    ensures |OpeningsIn(records, lifecycle)| == |OpeningsIn(records[..n], lifecycle)| +
      if IsPublication(records[..n], records[n], lifecycle) &&
        !Publishing(records[..n], records[n].node.value, lifecycle) then 1 else 0
  {
    var before, now := OpeningsIn(records[..n], lifecycle), OpeningsIn(records, lifecycle);
    forall k: nat | k < n ensures k in before <==> k in now {
      OpensInFront(records, n, k, lifecycle);
    }
    OneMoreAtTheEnd(before, now, n);
    LastOpens(records, n, lifecycle);
  }

  lemma LastOpens(records: seq<Record>, n: nat, lifecycle: bool)
    requires |records| == n + 1
    ensures OpensAt(records, n, lifecycle) <==>
      IsPublication(records[..n], records[n], lifecycle) &&
      !Publishing(records[..n], records[n].node.value, lifecycle)
  {
    assert PublishesAt(records, n, lifecycle) <==> IsPublication(records[..n], records[n], lifecycle);
    if PublishesAt(records, n, lifecycle) {
      var node := records[n].node.value;
      PublishingIs(records[..n], node, lifecycle);
      forall j: nat | j < n
        ensures PublishesAt(records[..n], j, lifecycle) <==> PublishesAt(records, j, lifecycle)
        ensures RedispatchedBetween(records[..n], j, n) <==> RedispatchedBetween(records, j, n)
      {
        PublishesInFront(records, n, j, lifecycle);
        BetweenInFront(records, n, j);
      }
    }
  }

  lemma BetweenInFront(records: seq<Record>, n: nat, j: nat)
    requires j < n <= |records|
    ensures RedispatchedBetween(records[..n], j, n) <==> RedispatchedBetween(records, j, n)
  {
    if RedispatchedBetween(records, j, n) {
      var m: nat :| j < m < n && records[m].node == records[j].node && records[m].said == Dispatched;
      assert records[..n][m] == records[m];
    }
  }

  // ---- its landing -------------------------------------------------------

  /** The landing read is the first recorded, and there is none only where none is recorded. */
  lemma {:induction false} FirstLandingIsFirst(records: seq<Record>) returns (i: nat)
    ensures FirstLanding(records).None? <==>
      forall j: nat :: j < |records| && records[j].node.Some? ==> !records[j].said.Landed?
    ensures FirstLanding(records).Some? ==>
      && i < |records| && records[i].node.Some? && records[i].said.Landed?
      && FirstLanding(records) == Some(records[i].said)
      && forall j: nat :: j < i && records[j].node.Some? ==> !records[j].said.Landed?
  {
    i := 0;
    if records != [] {
      var n: nat := |records| - 1;
      i := FirstLandingIsFirst(records[..n]);
      assert forall j: nat :: j < n ==> records[..n][j] == records[j];
      if FirstLanding(records[..n]).None? {
        i := n;
      }
    }
  }

  // ---- its gates ---------------------------------------------------------

  /** Gate runs are read in the order they are recorded. */
  lemma {:induction false} GateRunsJoin(before: seq<Record>, after: seq<Record>)
    ensures GateRuns(before + after) == GateRuns(before) + GateRuns(after)
    decreases |after|
  {
    if after == [] {
      assert before + after == before;
    } else {
      var front, last := after[..|after| - 1], after[|after| - 1];
      GateRunsJoin(before, front);
      assert before + after == before + front + [last];
      FoundNext(before + front, last);
    }
  }

  /** And of one record, the run is read where it took as long as from its start to an end no earlier. */
  lemma OneGateRun(record: Record)
    ensures GateRuns([record]) ==
      match record
      case Record(Some(_), _, GateRan(Some(run))) =>
        if run.startedAt + run.seconds == run.endedAt then [run] else []
      case _ => []
  {
    assert GateRuns([record][..0]) == [];
  }
}
