/**
 What puts a change where it is (src/changes.rs, the loop of `cycle`): whose time a turn
 is, when a closeout begins, and what a draft kept for review says of the wait before it.
 */
module ChangeStates {
  import opened ChangeRecords
  import opened Slices
  import opened Wrappers

  // ---- the members at work -----------------------------------------------

  predicate StartsMember(record: Record, member: string) {
    record.node.Some? && record.said == MemberStarted(Some(member))
  }

  /** Whether a record ends a member's turn: its own settlement, or a dispatch, which starts over. */
  predicate EndsMember(record: Record, member: string) {
    record.node.Some? && (record.said == MemberSettled(Some(member)) || record.said.Dispatched?)
  }

  /** Whether `member` started and has neither settled nor been dispatched over since. */
  ghost predicate IsOpen(records: seq<Record>, member: string) {
    exists i :: 0 <= i < |records| && StartsMember(records[i], member)
      && forall j :: i < j < |records| ==> !EndsMember(records[j], member)
  }

  ghost predicate AnyOpen(records: seq<Record>) {
    exists member :: IsOpen(records, member)
  }

  lemma OpenNext(before: seq<Record>, record: Record, records: seq<Record>, member: string)
    requires records == before + [record]
    ensures IsOpen(records, member) <==>
              StartsMember(record, member) || (IsOpen(before, member) && !EndsMember(record, member))
  {
    if StartsMember(record, member) {
      assert records[|before|] == record;
    } else if IsOpen(before, member) && !EndsMember(record, member) {
      var i :| 0 <= i < |before| && StartsMember(before[i], member) && forall j :: i < j < |before| ==>
        !EndsMember(before[j], member);
      assert records[i] == before[i];
    }
    if IsOpen(records, member) && !StartsMember(record, member) {
      var i :| 0 <= i < |records| && StartsMember(records[i], member) && forall j :: i < j < |records| ==>
        !EndsMember(records[j], member);
      assert before[i] == records[i] && records[|before|] == record;
      assert forall j :: i < j < |before| ==> records[j] == before[j];
    }
  }

  /** The members a change is waiting on are exactly those open. */
  lemma {:induction false} MembersAreOpen(records: seq<Record>, lifecycle: bool, member: string)
    ensures member in DoingAfter(records, lifecycle).members <==> IsOpen(records, member)
  {
    if records != [] {
      var before, last := records[..|records| - 1], records[|records| - 1];
      assert records == before + [last];
      MembersAreOpen(before, lifecycle, member);
      OpenNext(before, last, records, member);
      MembersNext(DoingAfter(before, lifecycle), last, lifecycle, member);
    }
  }

  lemma MembersNext(was: Doing, record: Record, lifecycle: bool, member: string)
    ensures member in After(was, record, lifecycle).members <==>
              StartsMember(record, member) || (member in was.members && !EndsMember(record, member))
  {
    if record.node.Some? {
      MembersAreNoted(was, record, lifecycle);
    }
  }

  // ---- a turn ------------------------------------------------------------

  /**
   Whether a record is within a turn: a session's, another member's start, or a settlement that
   leaves a member open.
   */
  ghost predicate WithinTurn(records: seq<Record>, k: nat)
    requires k < |records|
  {
    var said := records[k].said;
    || records[k].node.None? || OfSession(said) || said.Nothing? || said.MemberStarted?
    || (said.MemberSettled? && AnyOpen(records[..k + 1]))
  }

  /** While some member started by a dispatch is unsettled, the time is the agents', whatever its session records. */
  lemma {:induction false} ATurnIsTheAgents(records: seq<Record>, n: nat, lifecycle: bool)
    requires n <= |records| && DoingAfter(records[..n], lifecycle).now == Some(State.Agent)
    requires forall k :: n <= k < |records| ==> WithinTurn(records, k)
    ensures DoingAfter(records, lifecycle).now == Some(State.Agent)
    ensures TurnSoFar(DoingAfter(records[..n], lifecycle).transitions, DoingAfter(records, lifecycle).transitions)
    decreases |records|
  {
    if n == |records| {
      assert records[..n] == records;
    } else {
      var last := |records| - 1;
      var before := records[..last];
      assert before[..n] == records[..n];
      forall k | n <= k < |before| ensures WithinTurn(before, k) {
        assert WithinTurn(records, k);
        assert before[..k + 1] == records[..k + 1];
      }
      ATurnIsTheAgents(before, n, lifecycle);
      assert WithinTurn(records, last);
      assert records[..last + 1] == records;
      WithinTurnStays(before, records[last], records, lifecycle);
    }
  }

  /**
   Whether transitions are those of a turn's start, each as it was but for a reread wait, and then
   only the agent's.
   */
  ghost predicate TurnSoFar(start: seq<Transition>, now: seq<Transition>) {
    && |start| <= |now|
    && (forall i :: 0 <= i < |start| ==>
      now[i].at == start[i].at && (now[i].to == start[i].to || start[i].to == AwaitingMerge))
    && forall i :: |start| <= i < |now| ==> now[i].to == State.Agent
  }

  lemma WithinTurnStays(before: seq<Record>, record: Record, records: seq<Record>, lifecycle: bool)
    requires records == before + [record] && DoingAfter(before, lifecycle).now == Some(State.Agent)
    requires record.node.None? || OfSession(record.said) || record.said.Nothing? || record.said.MemberStarted?
             || (record.said.MemberSettled? && AnyOpen(records))
    ensures DoingAfter(records, lifecycle).now == Some(State.Agent)
    ensures TurnSoFar(DoingAfter(before, lifecycle).transitions, DoingAfter(records, lifecycle).transitions)
  {
    DoingNext(before, record, lifecycle);
    var was := DoingAfter(before, lifecycle);
    if record.said.MemberSettled? && record.node.Some? {
      var member :| IsOpen(records, member);
      MembersAreOpen(records, lifecycle, member);
      MembersAreNoted(was, record, lifecycle);
    }
    TurnStays(was, record, lifecycle);
  }

  lemma MembersAreNoted(was: Doing, record: Record, lifecycle: bool)
    requires record.node.Some?
    ensures After(was, record, lifecycle).members == Noted(was, record.said).members
  {
  }

  lemma TurnStays(was: Doing, record: Record, lifecycle: bool)
    requires was.now == Some(State.Agent)
    requires record.node.None? || OfSession(record.said) || record.said.Nothing? || record.said.MemberStarted?
             || (record.said.MemberSettled? && Noted(was, record.said).members != {})
    ensures After(was, record, lifecycle).now == Some(State.Agent)
    ensures TurnSoFar(was.transitions, After(was, record, lifecycle).transitions)
  {
  }

  /** And a lifecycle node's closeout begins with the settlement of the last of them. */
  lemma CloseoutBegins(before: seq<Record>, record: Record, records: seq<Record>, lifecycle: bool)
    requires records == before + [record] && DoingAfter(before, lifecycle).now == Some(State.Agent)
    requires record.node.Some? && record.said.MemberSettled? && !AnyOpen(records)
    ensures DoingAfter(records, lifecycle).now == Some(if lifecycle then State.Publication else State.Agent)
  {
    DoingNext(before, record, lifecycle);
    var was, now := DoingAfter(before, lifecycle), DoingAfter(records, lifecycle);
    forall member ensures member !in now.members {
      MembersAreOpen(records, lifecycle, member);
    }
    assert now.members == {};
    MembersAreNoted(was, record, lifecycle);
  }

  // ---- a draft kept for review -------------------------------------------

  /**
   Kept for its user's review, a change has waited on that review since its checks settled, not on an
   unexplained merge.
   */
  lemma KeptDraftWaitedOnReview(
    before: seq<Record>, record: Record, records: seq<Record>, lifecycle: bool, settled: nat, t: nat
  )
    requires records == before + [record] && record.node.Some? && record.said.DraftKeptForReview?
    requires record.ts.None? || settled <= record.ts.value
    requires var was := DoingAfter(before, lifecycle);
             && was.now == Some(AwaitingMerge) && was.transitions != []
             && was.transitions[|was.transitions| - 1] == Transition(settled, AwaitingMerge)
             && forall i :: 0 <= i < |was.transitions| ==> was.transitions[i].at <= settled
    requires settled <= t
    ensures StateAt(DoingAfter(before, lifecycle).transitions, t) == Some(AwaitingMerge)
    ensures StateAt(DoingAfter(records, lifecycle).transitions, t) == Some(State.ReviewWait)
  {
    DoingNext(before, record, lifecycle);
    var was, now := DoingAfter(before, lifecycle).transitions, DoingAfter(records, lifecycle).transitions;
    var last: nat := |was| - 1;
    WaitIsReread(DoingAfter(before, lifecycle), record, lifecycle, was, now, last);
    RereadWaits(was, now, last, settled, t);
  }

  lemma RereadWaits(was: seq<Transition>, now: seq<Transition>, last: nat, settled: nat, t: nat)
    requires |was| == last + 1 <= |now| <= last + 2 && now[..last] == was[..last] && settled <= t
    requires was[last] == Transition(settled, AwaitingMerge) && now[last] == Transition(settled, State.ReviewWait)
    requires forall i :: 0 <= i < |was| ==> was[i].at <= settled
    requires last + 1 < |now| ==> now[last + 1].to == State.ReviewWait
    ensures StateAt(was, t) == Some(AwaitingMerge) && StateAt(now, t) == Some(State.ReviewWait)
  {
    assert forall i :: 0 <= i < last ==> now[..last][i] == was[..last][i];
    LatestIsTheWait(was, last, settled, AwaitingMerge, t);
    LatestIsTheWait(now, last, settled, State.ReviewWait, t);
  }

  /** The wait a kept draft rereads is the last transition, in its place and at its stamp. */
  lemma WaitIsReread(
    doing: Doing, record: Record, lifecycle: bool, was: seq<Transition>, now: seq<Transition>, last: nat
  )
    requires record.node.Some? && record.said.DraftKeptForReview? && doing.now == Some(AwaitingMerge)
    requires was == doing.transitions && now == After(doing, record, lifecycle).transitions
    requires |was| == last + 1 && was[last].to == AwaitingMerge
    ensures last + 1 <= |now| <= last + 2 && now[..last] == was[..last]
    ensures now[last] == Transition(was[last].at, State.ReviewWait)
    ensures last + 1 < |now| ==> record.ts.Some? && now[last + 1] == Transition(record.ts.value, State.ReviewWait)
  {
  }

  /** A wait that is the latest stamped, and followed by nothing else, is what a change does from its stamp on. */
  lemma LatestIsTheWait(transitions: seq<Transition>, n: nat, settled: nat, wait: State, t: nat)
    requires n < |transitions| <= n + 2 && transitions[n] == Transition(settled, wait) && settled <= t
    requires forall i :: 0 <= i < n ==> transitions[i].at <= settled
    requires n + 1 < |transitions| ==> transitions[n + 1].to == wait
    ensures StateAt(transitions, t) == Some(wait)
  {
    var i := LatestIsLatest(transitions, t);
    assert transitions[n].at <= t;
  }

  // ---- what each record moves a change to --------------------------------

  /** Whether a record drafts the change for someone or something else: a person, or a release. */
  predicate DraftsFor(record: Record, reason: DraftFor) {
    record.node.Some? && record.said == ChangeDrafted(reason)
  }

  predicate Drafts(record: Record) {
    DraftsFor(record, APerson) || DraftsFor(record, ARelease)
  }

  /** Whether a draft waits for what `reason` names: its last draft for anything but itself says so. */
  ghost predicate WaitsFor(records: seq<Record>, reason: DraftFor) {
    exists i :: 0 <= i < |records| && DraftsFor(records[i], reason) &&
      forall j :: i < j < |records| ==> !Drafts(records[j])
  }

  ghost predicate HasOpened(records: seq<Record>) {
    exists i :: 0 <= i < |records| && records[i].node.Some? &&
      (records[i].said.ChangeOpened? || records[i].said.ChangeDrafted?)
  }

  lemma WaitsNext(before: seq<Record>, record: Record, records: seq<Record>, reason: DraftFor)
    requires records == before + [record] && reason != Itself
    ensures WaitsFor(records, reason) <==> DraftsFor(record, reason) || (WaitsFor(before, reason) && !Drafts(record))
  {
    if DraftsFor(record, reason) {
      assert records[|before|] == record;
    } else if WaitsFor(before, reason) && !Drafts(record) {
      var i :| 0 <= i < |before| && DraftsFor(before[i], reason) && forall j :: i < j < |before| ==> !Drafts(before[j]);
      assert records[i] == before[i];
    }
    if WaitsFor(records, reason) && !DraftsFor(record, reason) {
      var i :| 0 <= i < |records| && DraftsFor(records[i], reason) &&
        forall j :: i < j < |records| ==> !Drafts(records[j]);
      assert before[i] == records[i] && records[|before|] == record;
      assert forall j :: i < j < |before| ==> records[j] == before[j];
    }
  }

  lemma HeldNext(was: Doing, record: Record, lifecycle: bool)
    ensures After(was, record, lifecycle).heldFor ==
            if DraftsFor(record, APerson) then Some(State.ReviewWait)
            else if DraftsFor(record, ARelease) then Some(State.ReleaseWait) else was.heldFor
    ensures After(was, record, lifecycle).isOpen <==>
            was.isOpen || (record.node.Some? && (record.said.ChangeOpened? || record.said.ChangeDrafted?))
  {
  }

  /** What a draft waits for is what its last draft for anything but itself said. */
  lemma {:induction false} HeldForIsTheLastDraft(records: seq<Record>, lifecycle: bool)
    ensures DoingAfter(records, lifecycle).heldFor == Some(State.ReviewWait) <==> WaitsFor(records, APerson)
    ensures DoingAfter(records, lifecycle).heldFor == Some(State.ReleaseWait) <==> WaitsFor(records, ARelease)
    ensures DoingAfter(records, lifecycle).heldFor in {None, Some(State.ReviewWait), Some(State.ReleaseWait)}
    ensures DoingAfter(records, lifecycle).isOpen <==> HasOpened(records)
  {
    if records != [] {
      var before, last := records[..|records| - 1], records[|records| - 1];
      assert records == before + [last];
      HeldForIsTheLastDraft(before, lifecycle);
      WaitsNext(before, last, records, APerson);
      WaitsNext(before, last, records, ARelease);
      HeldNext(DoingAfter(before, lifecycle), last, lifecycle);
      OpenedNext(before, last, records);
    }
  }

  lemma OpenedNext(before: seq<Record>, record: Record, records: seq<Record>)
    requires records == before + [record]
    ensures HasOpened(records) <==>
      HasOpened(before) || (record.node.Some? && (record.said.ChangeOpened? || record.said.ChangeDrafted?))
  {
    assert records[|before|] == record;
    assert forall i :: 0 <= i < |before| ==> records[i] == before[i];
  }

  /** Where a record of the run's own, or a member's start, puts a change, wherever it was. */
  ghost predicate PutsIn(records: seq<Record>, said: Said, now: State) {
    match said
    case Dispatched => now == State.Agent
    case MemberStarted(_) => now == State.Agent
    case Requeued => now == State.Scheduling
    case NodeHeld => now == State.Scheduling
    case ReleaseWaited => now == State.ReleaseWait
    case Settled(ReviewDrafted) => now == State.ReviewWait
    case Settled(Drafted) => now == if WaitsFor(records, APerson) then State.ReviewWait else State.ReleaseWait
    case Settled(HeldForRelease) => now == State.ReleaseWait
    case Settled(Queued) => now == State.MergeQueue
    case Settled(ChangeOpen) => now == AwaitingMerge
    case Settled(Otherwise(done)) => now == if done then Finished else State.Scheduling
    case _ => false
  }

  /** Where a session's record puts a change whose turn is over, if it puts it anywhere. */
  ghost predicate ClosesIn(records: seq<Record>, said: Said, now: State) {
    match said
    case ChecksSettled =>
      if WaitsFor(records, APerson) then now == State.ReviewWait
      else if WaitsFor(records, ARelease) then now == State.ReleaseWait
      else HasOpened(records) && now == AwaitingMerge
    case DraftKeptForReview => now == State.ReviewWait
    case MergeQueued => now == State.MergeQueue
    case _ =>
      (said in {Push, ChangeOpened, DraftLifted, SyncConflict} || said.ChangeDrafted?) && now == State.Publication
  }

  /** What a record moves a change to, told of the records: where nothing below holds, it stays as it was. */
  ghost predicate Moves(records: seq<Record>, was: Option<State>, lifecycle: bool, said: Said, now: State) {
    || PutsIn(records, said, now)
    || (was.Some? && was != Some(State.Agent) && ClosesIn(records, said, now))
    || (was == Some(State.Agent) && lifecycle && said.MemberSettled? && !AnyOpen(records) && now == State.Publication)
  }

  lemma MovedIs(records: seq<Record>, noted: Doing, was: Option<State>, lifecycle: bool, said: Said)
    requires noted.heldFor == Some(State.ReviewWait) <==> WaitsFor(records, APerson)
    requires noted.heldFor == Some(State.ReleaseWait) <==> WaitsFor(records, ARelease)
    requires noted.heldFor in {None, Some(State.ReviewWait), Some(State.ReleaseWait)}
    requires noted.isOpen <==> HasOpened(records)
    requires noted.members == {} <==> !AnyOpen(records)
    requires noted.now == was
    ensures forall now :: Moves(records, was, lifecycle, said, now) <==>
      MovedTo(noted, said, lifecycle) == Some(now)
  {
  }

  /** Whether what a change did is as it was, but for a last wait a kept draft rereads as one for review. */
  ghost predicate Kept(was: seq<Transition>, now: seq<Transition>, keptForReview: bool) {
    && |was| <= |now|
    && forall i :: 0 <= i < |was| ==>
      now[i] == if keptForReview && i == |was| - 1 && was[i].to == AwaitingMerge
        then Transition(was[i].at, State.ReviewWait) else was[i]
  }

  lemma MoveIsAdded(was: Doing, noted: Doing, record: Record, lifecycle: bool)
    requires noted == Noted(was, record.said) && record.node.Some?
    ensures var now, to := After(was, record, lifecycle), MovedTo(noted, record.said, lifecycle);
      && Kept(was.transitions, now.transitions, record.said.DraftKeptForReview?)
      && now.now == (if to.Some? then to else was.now)
      && now.transitions[|was.transitions|..] ==
        if to.Some? && record.ts.Some? then [Transition(record.ts.value, to.value)] else []
  {
  }

  lemma NotedIs(was: Doing, record: Record, lifecycle: bool, noted: Doing)
    requires noted == Noted(was, record.said) && record.node.Some?
    ensures var now := After(was, record, lifecycle);
      noted.heldFor == now.heldFor && noted.isOpen == now.isOpen && noted.members == now.members && noted.now == was.now
  {
  }

  lemma NoneIsOpen(records: seq<Record>, lifecycle: bool)
    ensures DoingAfter(records, lifecycle).members == {} <==> !AnyOpen(records)
  {
    forall member ensures member in DoingAfter(records, lifecycle).members <==> IsOpen(records, member) {
      MembersAreOpen(records, lifecycle, member);
    }
  }

  lemma MovesAre(
    before: seq<Record>, record: Record, records: seq<Record>, lifecycle: bool, was: Doing, noted: Doing
  )
    requires records == before + [record] && record.node.Some?
    requires was == DoingAfter(before, lifecycle) && noted == Noted(was, record.said)
    ensures forall state ::
      Moves(records, was.now, lifecycle, record.said, state) <==> MovedTo(noted, record.said, lifecycle) == Some(state)
  {
    HeldForIsTheLastDraft(records, lifecycle);
    NoneIsOpen(records, lifecycle);
    DoingNext(before, record, lifecycle);
    NotedIs(was, record, lifecycle, noted);
    MovedIs(records, noted, was.now, lifecycle, record.said);
  }

  /** Each record moves a change where its records say, and adds that move, at its own stamp, to what it did. */
  lemma RecordMoves(before: seq<Record>, record: Record, records: seq<Record>, lifecycle: bool)
      returns (moved: Option<State>)
    requires records == before + [record] && record.node.Some?
    ensures forall state ::
      Moves(records, DoingAfter(before, lifecycle).now, lifecycle, record.said, state) <==> moved == Some(state)
    ensures DoingAfter(records, lifecycle).now == if moved.Some? then moved else DoingAfter(before, lifecycle).now
    ensures var was, now := DoingAfter(before, lifecycle).transitions, DoingAfter(records, lifecycle).transitions;
      && Kept(was, now, record.said.DraftKeptForReview?)
      && now[|was|..] ==
        if moved.Some? && record.ts.Some? then [Transition(record.ts.value, moved.value)] else []
  {
    var was := DoingAfter(before, lifecycle);
    var noted := Noted(was, record.said);
    moved := MovedTo(noted, record.said, lifecycle);
    MovesAre(before, record, records, lifecycle, was, noted);
    DoingNext(before, record, lifecycle);
    MoveIsAdded(was, noted, record, lifecycle);
  }

  /** A record of no node says nothing of the change. */
  lemma UnlabelledIsNothing(before: seq<Record>, record: Record, lifecycle: bool)
    requires record.node.None?
    ensures DoingAfter(before + [record], lifecycle) == DoingAfter(before, lifecycle)
  {
    DoingNext(before, record, lifecycle);
  }
}
