/**
 The run's record of its exports (src/boundary.rs, `ensure_export`, `pinned_to_its_export`)
 and its wanted edges as they follow every retry (`edges_now`).
 */
module Exports {
  import opened Wrappers
  import opened Supersession
  import Boundary

  /** One edge's export, as a dispatch asks for it. */
  datatype Export = Export(
    producer: string,
    consumer: string,
    from: string,
    branch: string,
    head: Option<string>,
    sourceDirectory: string,
    target: string,
    targetDirectory: string,
    acceptedOpaque: seq<string>,
    ordinal: nat
  )

  /** What the host exported: the public branch, and the commit it stands at. */
  datatype Exported = Exported(branch: string, head: string)

  datatype Recorded = Recorded(asked: Export, exported: Exported)

  predicate OfEdge(held: Recorded, wanted: Export) {
    && held.asked.producer == wanted.producer && held.asked.consumer == wanted.consumer
    && held.asked.from == wanted.from && held.asked.target == wanted.target
    && held.asked.targetDirectory == wanted.targetDirectory
  }

  predicate Same(held: Recorded, wanted: Export) {
    OfEdge(held, wanted) && held.asked.branch == wanted.branch && held.asked.sourceDirectory == wanted.sourceDirectory
  }

  /** Whether two exports are of one edge: of one producer and consumer, between one pair of places. */
  ghost predicate OneEdge(a: Export, b: Export) {
    && a.producer == b.producer && a.consumer == b.consumer
    && a.from == b.from && a.target == b.target && a.targetDirectory == b.targetDirectory
  }

  /** Whether two exports are the same one: of one edge, and of one branch's one directory. */
  ghost predicate OneExport(a: Export, b: Export) {
    OneEdge(a, b) && a.branch == b.branch && a.sourceDirectory == b.sourceDirectory
  }

  /** The record on disk: none made yet, one that cannot be read, or what it holds. */
  datatype Record = Absent | Unreadable | Holding(recorded: seq<Recorded>)

  /** What everything outside answers one call: the import, the branch prefix, the export and the write. */
  datatype Host = Host(imports: bool, prefixed: bool, exported: Option<Exported>, writes: bool)

  datatype Refusal = RecordUnreadable | NotImported | NoPrefix | ExportRefused | NotRecorded

  function HeldIn(record: Record): seq<Recorded> {
    if record.Holding? then record.recorded else []
  }

  ghost predicate IsFirst(held: seq<Recorded>, wanted: Export, i: nat) {
    i < |held| && OneExport(held[i].asked, wanted) && forall j :: 0 <= j < i ==> !OneExport(held[j].asked, wanted)
  }

  /** The first record of the very export asked for. */
  function Find(held: seq<Recorded>, wanted: Export): Option<Recorded> {
    if held == [] then None
    else if Same(held[0], wanted) then Some(held[0])
    else Find(held[1..], wanted)
  }

  lemma {:induction false} FindsTheFirst(held: seq<Recorded>, wanted: Export) returns (i: nat)
    ensures Find(held, wanted).Some? ==> IsFirst(held, wanted, i) && Find(held, wanted) == Some(held[i])
    ensures Find(held, wanted).None? ==> forall j :: 0 <= j < |held| ==> !OneExport(held[j].asked, wanted)
  {
    i := 0;
    if held != [] && !Same(held[0], wanted) {
      var rest := held[1..];
      var k := FindsTheFirst(rest, wanted);
      assert forall j :: 0 < j < |held| ==> held[j] == rest[j - 1];
      i := k + 1;
    }
  }

  /** What a first export is recorded as, or why there is none to record. */
  function Made(wanted: Export, host: Host): Result<Recorded, Refusal> {
    if !host.imports then Err(NotImported)
    else if !host.prefixed then Err(NoPrefix)
    else if host.exported.None? then Err(ExportRefused)
    else Ok(Recorded(wanted, host.exported.value))
  }

  /** The record one call leaves. */
  function Left(record: Record, wanted: Export, host: Host): Record {
    if record.Unreadable? || Find(HeldIn(record), wanted).Some? || Made(wanted, host).Err? || !host.writes then record
    else Holding(HeldIn(record) + [Made(wanted, host).value])
  }

  /** The branch one call answers, or its refusal. */
  function Answered(record: Record, wanted: Export, host: Host): Result<string, Refusal> {
    if record.Unreadable? then Err(RecordUnreadable)
    else
      match Find(HeldIn(record), wanted)
      case Some(held) => Ok(held.exported.branch)
      case None =>
        match Made(wanted, host)
        case Err(why) => Err(why)
        case Ok(made) => if host.writes then Ok(made.exported.branch) else Err(NotRecorded)
  }

  /** A call for a recorded export: answered as it was, whatever the host would say now. */
  ghost predicate IsRecalled(before: Record, wanted: Export, after: Record, answer: Result<string, Refusal>) {
    && before.Holding? && after == before
    && exists i: nat :: IsFirst(before.recorded, wanted, i) && answer == Ok(before.recorded[i].exported.branch)
  }

  /** A call for any other: made and recorded, once, or refused with the record as it stood. */
  ghost predicate IsMade(
    before: Record, wanted: Export, host: Host, after: Record, answer: Result<string, Refusal>
  ) {
    var held := if before.Holding? then before.recorded else [];
    && !before.Unreadable? && (forall i :: 0 <= i < |held| ==> !OneExport(held[i].asked, wanted))
    && if host.imports && host.prefixed && host.exported.Some? && host.writes then
      && answer == Ok(host.exported.value.branch)
      && after == Holding(held + [Recorded(wanted, host.exported.value)])
    else
      && after == before
      && (!host.imports ==> answer == Err(NotImported))
      && (host.imports && !host.prefixed ==> answer == Err(NoPrefix))
      && (host.imports && host.prefixed && host.exported.None? ==> answer == Err(ExportRefused))
      && (host.imports && host.prefixed && host.exported.Some? ==> answer == Err(NotRecorded))
  }

  /** One call, told of its answer and the records on either side of it. */
  ghost predicate IsCall(
    before: Record, wanted: Export, host: Host, after: Record, answer: Result<string, Refusal>
  ) {
    || (before.Unreadable? && after == before && answer == Err(RecordUnreadable))
    || IsRecalled(before, wanted, after, answer)
    || IsMade(before, wanted, host, after, answer)
  }

  /** What a call leaves and answers, in terms of the record's own fields, and nothing else. */
  lemma CallIs(before: Record, wanted: Export, host: Host)
    ensures IsCall(before, wanted, host, Left(before, wanted, host), Answered(before, wanted, host))
  {
    var _ := FindsTheFirst(HeldIn(before), wanted);
  }

  class RunExports {
    var record: Record

    constructor ()
      ensures record == Absent
    {
      record := Absent;
    }

    /** The public branch an edge's consumer starts from: the recorded one, or one exported now. */
    method EnsureExport(wanted: Export, host: Host) returns (answer: Result<string, Refusal>)
      modifies this
      ensures record == Left(old(record), wanted, host) && answer == Answered(old(record), wanted, host)
      ensures IsCall(old(record), wanted, host, record, answer)
    {
      CallIs(record, wanted, host);
      if record.Unreadable? {
        return Err(RecordUnreadable);
      }
      var recorded := HeldIn(record);
      var found := Find(recorded, wanted);
      if found.Some? {
        return Ok(found.value.exported.branch);
      }
      if !host.imports {
        return Err(NotImported);
      }
      if !host.prefixed {
        return Err(NoPrefix);
      }
      if host.exported.None? {
        return Err(ExportRefused);
      }
      recorded := recorded + [Recorded(wanted, host.exported.value)];
      if !host.writes {
        return Err(NotRecorded);
      }
      record := Holding(recorded);
      return Ok(host.exported.value.branch);
    }

    /** Whether `branch` is an export of this edge the run recorded. */
    method PinnedToItsExport(wanted: Export, branch: string) returns (pinned: Result<bool, Refusal>)
      ensures pinned == if record.Unreadable? then Err(RecordUnreadable) else Ok(Pinned(record, wanted, branch))
    {
      if record.Unreadable? {
        return Err(RecordUnreadable);
      }
      var recorded := HeldIn(record);
      for i := 0 to |recorded|
        invariant !PinnedBy(recorded[..i], wanted, branch)
      {
        assert recorded[..i + 1] == recorded[..i] + [recorded[i]];
        if OfEdge(recorded[i], wanted) && recorded[i].exported.branch == branch {
          return Ok(true);
        }
      }
      assert recorded[..|recorded|] == recorded;
      return Ok(false);
    }
  }

  ghost predicate PinnedBy(held: seq<Recorded>, wanted: Export, branch: string) {
    exists i :: 0 <= i < |held| && held[i].exported.branch == branch && OneEdge(held[i].asked, wanted)
  }

  ghost predicate Pinned(record: Record, wanted: Export, branch: string) {
    record.Holding? && PinnedBy(record.recorded, wanted, branch)
  }

  // ---- over a run --------------------------------------------------------

  datatype Call = Call(wanted: Export, host: Host)

  /** The record as it stands before each call of a run, and after the last. */
  ghost predicate IsRun(records: seq<Record>, calls: seq<Call>) {
    && |records| == |calls| + 1 && records[0] == Absent
    && forall n :: 0 <= n < |calls| ==> Follows(records[n], records[n + 1], calls[n])
  }

  ghost predicate Follows(before: Record, after: Record, call: Call) {
    after == Left(before, call.wanted, call.host)
  }

  /** Whether no export is recorded twice. */
  ghost predicate Once(held: seq<Recorded>) {
    forall i, j :: 0 <= i < j < |held| ==> !OneExport(held[i].asked, held[j].asked)
  }

  lemma LeftKeepsOnce(record: Record, wanted: Export, host: Host)
    requires Once(HeldIn(record))
    ensures Once(HeldIn(Left(record, wanted, host)))
    ensures HeldIn(record) <= HeldIn(Left(record, wanted, host))
  {
    var _ := FindsTheFirst(HeldIn(record), wanted);
  }

  lemma CallKeepsOnce(before: Record, after: Record, call: Call)
    requires Follows(before, after, call) && Once(HeldIn(before)) && !before.Unreadable?
    ensures Once(HeldIn(after)) && HeldIn(before) <= HeldIn(after) && !after.Unreadable?
  {
    LeftKeepsOnce(before, call.wanted, call.host);
  }

  /** However its calls go, a run records each export once, and takes none back. */
  lemma {:induction false} RecordedOnce(records: seq<Record>, calls: seq<Call>, m: nat, n: nat)
    requires IsRun(records, calls) && m <= n < |records|
    ensures Once(HeldIn(records[n])) && HeldIn(records[m]) <= HeldIn(records[n]) && !records[n].Unreadable?
  {
    if n > 0 {
      RecordedOnce(records, calls, if m < n then m else m - 1, n - 1);
      var before := n - 1;
      assert Follows(records[before], records[before + 1], calls[before]);
      CallKeepsOnce(records[before], records[n], calls[before]);
    }
  }

  lemma {:induction false} FindIsTheOne(held: seq<Recorded>, wanted: Export, i: nat)
    requires Once(held) && i < |held| && OneExport(held[i].asked, wanted)
    ensures Find(held, wanted) == Some(held[i])
  {
    if i > 0 {
      assert !OneExport(held[0].asked, held[i].asked);
      FindIsTheOne(held[1..], wanted, i - 1);
    }
  }

  /** What a call that answers a branch leaves: the one record of that export, holding that branch. */
  lemma AnsweredIsRecorded(record: Record, wanted: Export, host: Host) returns (i: nat)
    requires Answered(record, wanted, host).Ok?
    ensures var held := HeldIn(Left(record, wanted, host));
            i < |held| && OneExport(held[i].asked, wanted) &&
              held[i].exported.branch == Answered(record, wanted, host).value
  {
    i := FindsTheFirst(HeldIn(record), wanted);
    if Find(HeldIn(record), wanted).None? {
      i := |HeldIn(record)|;
    }
  }

  /** Once an export is answered, every later call for it answers the same branch, whatever the host would say now. */
  lemma SameBranchEverAfter(records: seq<Record>, calls: seq<Call>, m: nat, n: nat)
    requires IsRun(records, calls) && m < n < |calls|
    requires calls[m].wanted.producer == calls[n].wanted.producer
    requires calls[m].wanted.consumer == calls[n].wanted.consumer
    requires calls[m].wanted.from == calls[n].wanted.from && calls[m].wanted.target == calls[n].wanted.target
    requires calls[m].wanted.sourceDirectory == calls[n].wanted.sourceDirectory
    requires calls[m].wanted.targetDirectory == calls[n].wanted.targetDirectory
    requires calls[m].wanted.branch == calls[n].wanted.branch
    requires Answered(records[m], calls[m].wanted, calls[m].host).Ok?
    ensures Answered(records[n], calls[n].wanted, calls[n].host) == Answered(records[m], calls[m].wanted, calls[m].host)
    ensures Left(records[n], calls[n].wanted, calls[n].host) == records[n]
    ensures Pinned(records[n], calls[m].wanted, Answered(records[m], calls[m].wanted, calls[m].host).value)
  {
    assert Follows(records[m], records[m + 1], calls[m]);
    var i := AnsweredIsRecorded(records[m], calls[m].wanted, calls[m].host);
    RecordedOnce(records, calls, m + 1, n);
    var held := HeldIn(records[n]);
    assert held[i] == HeldIn(records[m + 1])[i];
    FindIsTheOne(held, calls[n].wanted, i);
  }

  /** A consumer is only ever pinned to a branch some call for its edge exported. */
  lemma {:induction false} PinnedWasExported(
    records: seq<Record>, calls: seq<Call>, n: nat, wanted: Export, branch: string
  ) returns (m: nat)
    requires IsRun(records, calls) && n < |records| && Pinned(records[n], wanted, branch)
    ensures m < n && calls[m].wanted.producer == wanted.producer && calls[m].wanted.consumer == wanted.consumer
    ensures calls[m].wanted.from == wanted.from && calls[m].wanted.target == wanted.target
    ensures calls[m].wanted.targetDirectory == wanted.targetDirectory
    ensures Answered(records[m], calls[m].wanted, calls[m].host) == Ok(branch)
  {
    var before := n - 1;
    assert Follows(records[before], records[before + 1], calls[before]);
    if Pinned(records[before], wanted, branch) {
      m := PinnedWasExported(records, calls, before, wanted, branch);
    } else {
      m := before;
    }
  }

  // ---- the export edges as they stand ------------------------------------

  type Edge = Boundary.ExportEdge

  function Followed(superseded: Superseded, edge: Edge): Edge {
    edge.(from := Latest(superseded, edge.from), to := Latest(superseded, edge.to))
  }

  /** The export edges after a run's supersessions: an edge naming a replaced node names its latest replacement. */
  method EdgesNow(edges: seq<Edge>, superseded: Superseded) returns (now: seq<Edge>)
    ensures |now| == |edges| && forall n :: 0 <= n < |edges| ==> now[n] == Followed(superseded, edges[n])
  {
    now := [];
    for n := 0 to |edges|
      invariant |now| == n && forall m :: 0 <= m < n ==> now[m] == Followed(superseded, edges[m])
    {
      var from := LatestOf(edges[n].from, superseded);
      var end := LatestOf(edges[n].to, superseded);
      now := now + [edges[n].(from := from, to := end)];
    }
  }

  /** Following every edge twice is following it once, whatever the map. */
  lemma FollowedIsIdempotent(superseded: Superseded, edge: Edge)
    ensures Followed(superseded, Followed(superseded, edge)) == Followed(superseded, edge)
  {
    LatestIsIdempotent(superseded, edge.from);
    LatestIsIdempotent(superseded, edge.to);
  }

  /** Retries never run two launched nodes together, so no two edges come to share a consumer. */
  lemma LineagesStayApart(superseded: Superseded, a: Id, b: Id)
    requires Injective(superseded) && Launched(superseded, a) && Launched(superseded, b)
    requires Latest(superseded, a) == Latest(superseded, b)
    ensures a == b
  {
    LatestIs(superseded, a);
    LatestIs(superseded, b);
    LineageRootIsLaunched(superseded, a, b);
  }

  /** The edges of a launched plan, followed through any retries: both ends live, and still one edge to a consumer. */
  lemma EdgesKeepTheirIdentity(superseded: Superseded, edge: Edge, other: Edge)
    requires Injective(superseded)
    requires Launched(superseded, edge.from) && Launched(superseded, edge.to) && Launched(superseded, other.to)
    ensures Followed(superseded, edge).from !in superseded && Followed(superseded, edge).to !in superseded
    ensures Followed(superseded, edge).to == Followed(superseded, other).to ==> edge.to == other.to
  {
    LatestIs(superseded, edge.from);
    LatestIs(superseded, edge.to);
    LineageRootIsLaunched(superseded, edge.from, edge.from);
    LineageRootIsLaunched(superseded, edge.to, edge.to);
    if Latest(superseded, edge.to) == Latest(superseded, other.to) {
      LineagesStayApart(superseded, edge.to, other.to);
    }
  }
}
