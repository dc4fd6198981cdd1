/**
 What a lineage's records say of its change (src/changes.rs, the loop of `cycle`): when
 it was dispatched, what it was doing from when, how often it published, and its landing.

 `Reading` takes the records one at a time; the functions beside it say what it then holds.
 */
module ChangeRecords {
  import opened Slices
  import opened Wrappers

  type Id = string

  /** A gate run as it arrives; `seconds` are whole milliseconds. */
  datatype GateFields = GateFields(
    gate: string, attempt: nat, startedAt: nat, endedAt: nat, seconds: nat, verdict: string
  )

  /** A gate run that reads: one that ends no earlier than it starts, and took exactly that long. */
  type GateRun = run: GateFields | run.startedAt <= run.endedAt && run.seconds == run.endedAt - run.startedAt
    witness GateFields("", 0, 0, 0, 0, "")

  function ReadGate(fields: GateFields): Option<GateRun> {
    if fields.startedAt <= fields.endedAt && fields.seconds == fields.endedAt - fields.startedAt then Some(fields)
    else None
  }

  /** The gate run a record carries, where it reads: one that does not is passed over. */
  function GateOf(said: Said): Option<GateRun> {
    if said.GateRan? && said.fields.Some? then ReadGate(said.fields.value) else None
  }

  datatype Outcome = ReviewDrafted | Drafted | HeldForRelease | Queued | ChangeOpen | Otherwise(done: bool)

  datatype DraftFor = APerson | ARelease | Itself

  /** What one record says: of the run's own records and an agent's first, then of a session's. */
  datatype Said =
    | Nothing
    | Dispatched
    | Settled(outcome: Outcome)
    | Requeued
    | NodeHeld
    | ReleaseWaited
    | MemberStarted(member: Option<string>)
    | MemberSettled(member: Option<string>)
    | SessionSaid
    | Published
    | Push
    | GateRan(fields: Option<GateFields>)  // none where a field is missing, or says what no build names
    | ChangeOpened
    | ChangeDrafted(reason: DraftFor)
    | ChecksSettled
    | DraftKeptForReview
    | DraftLifted
    | MergeQueued
    | SyncConflict
    | Landed(at: Option<nat>, landing: Option<string>)

  datatype Record = Record(node: Option<Id>, ts: Option<nat>, said: Said)

  predicate OfSession(said: Said) {
    !(said.Nothing? || said.Dispatched? || said.Settled? || said.Requeued? || said.NodeHeld? || said.ReleaseWaited?
      || said.MemberStarted? || said.MemberSettled?)
  }

  predicate Publishes(said: Said) {
    said.Published? || said.Push? || said.GateRan? || said.ChangeOpened? || said.ChecksSettled? || said.MergeQueued?
    || said.Landed? || said.SyncConflict? || said.DraftKeptForReview?
  }

  // ---- what the change is doing ------------------------------------------

  datatype Doing = Doing(
    now: Option<State>, members: set<string>, isOpen: bool, heldFor: Option<State>, transitions: seq<Transition>
  )

  const UNDISPATCHED := Doing(None, {}, false, None, [])

  predicate Closing(doing: Doing) {
    doing.now.Some? && doing.now.value != State.Agent
  }

  /** The members at work, whether a change request is open, and what a draft waits for, past one record. */
  function Noted(doing: Doing, said: Said): Doing {
    match said
    case Dispatched => doing.(members := {})
    case MemberStarted(Some(member)) => doing.(members := doing.members + {member})
    case MemberSettled(Some(member)) => doing.(members := doing.members - {member})
    case ChangeOpened => doing.(isOpen := true)
    case ChangeDrafted(reason) =>
      doing.(isOpen := true,
             heldFor := match reason
                        case APerson => Some(State.ReviewWait)
                        case ARelease => Some(State.ReleaseWait)
                        case Itself => doing.heldFor)
    case _ => doing
  }

  function SettledTo(doing: Doing, outcome: Outcome): State {
    match outcome
    case ReviewDrafted => State.ReviewWait
    case Drafted => if doing.heldFor.Some? then doing.heldFor.value else State.ReleaseWait
    case HeldForRelease => State.ReleaseWait
    case Queued => State.MergeQueue
    case ChangeOpen => AwaitingMerge
    case Otherwise(done) => if done then Finished else State.Scheduling
  }

  /** What a session's record moves a change in its closeout to. */
  function ClosedTo(doing: Doing, said: Said): Option<State> {
    match said
    case ChecksSettled =>
      if doing.heldFor.Some? then doing.heldFor else if doing.isOpen then Some(AwaitingMerge) else None
    case DraftKeptForReview => Some(State.ReviewWait)
    case MergeQueued => Some(State.MergeQueue)
    case Push => Some(State.Publication)
    case ChangeOpened => Some(State.Publication)
    case ChangeDrafted(_) => Some(State.Publication)
    case DraftLifted => Some(State.Publication)
    case SyncConflict => Some(State.Publication)
    case _ => None
  }

  /** What one record moves the change to, where it moves it. */
  function MovedTo(doing: Doing, said: Said, lifecycle: bool): Option<State> {
    match said
    case Dispatched => Some(State.Agent)
    case Settled(outcome) => Some(SettledTo(doing, outcome))
    case Requeued => Some(State.Scheduling)
    case NodeHeld => Some(State.Scheduling)
    case ReleaseWaited => Some(State.ReleaseWait)
    case MemberStarted(_) => Some(State.Agent)
    case MemberSettled(_) =>
      if lifecycle && doing.members == {} && doing.now == Some(State.Agent) then Some(State.Publication) else None
    case _ => if OfSession(said) && Closing(doing) then ClosedTo(doing, said) else None
  }

  /** A draft kept for review says what the change has waited on since its checks settled. */
  function Reread(transitions: seq<Transition>, said: Said): seq<Transition> {
    if said.DraftKeptForReview? && transitions != [] && transitions[|transitions| - 1].to == AwaitingMerge then
      transitions[|transitions| - 1 := transitions[|transitions| - 1].(to := State.ReviewWait)]
    else transitions
  }

  function Moved(doing: Doing, ts: Option<nat>, moved: Option<State>): Doing {
    if moved.None? then doing
    else doing.(now := moved,
                transitions := if ts.Some? then doing.transitions + [Transition(ts.value, moved.value)]
                  else doing.transitions)
  }

  function After(doing: Doing, record: Record, lifecycle: bool): Doing {
    if record.node.None? then doing
    else
      var noted := Noted(doing, record.said);
      Moved(noted.(transitions := Reread(noted.transitions, record.said)), record.ts,
        MovedTo(noted, record.said, lifecycle))
  }

  function DoingAfter(records: seq<Record>, lifecycle: bool): Doing {
    if records == [] then UNDISPATCHED
    else After(DoingAfter(records[..|records| - 1], lifecycle), records[|records| - 1], lifecycle)
  }

  // ---- what else its records say -----------------------------------------

  predicate Dispatches(record: Record) {
    record.node.Some? && record.said.Dispatched?
  }

  /** The earliest stamp any dispatch carries. */
  ghost predicate IsFirstDispatch(records: seq<Record>, first: Option<nat>) {
    && (first.Some? ==> exists i :: 0 <= i < |records| && Dispatches(records[i]) && records[i].ts == first)
    && forall i :: 0 <= i < |records| && Dispatches(records[i]) && records[i].ts.Some? ==>
      first.Some? && first.value <= records[i].ts.value
  }

  function DispatchCount(records: seq<Record>): nat {
    if records == [] then 0
    else DispatchCount(records[..|records| - 1]) + if Dispatches(records[|records| - 1]) then 1 else 0
  }

  function FirstLanding(records: seq<Record>): Option<Said> {
    if records == [] then None
    else
      var before, last := FirstLanding(records[..|records| - 1]), records[|records| - 1];
      if before.None? && last.node.Some? && last.said.Landed? then Some(last.said) else before
  }

  function GateRuns(records: seq<Record>): seq<GateRun> {
    if records == [] then []
    else
      var last := records[|records| - 1];
      GateRuns(records[..|records| - 1]) +
      if last.node.Some? && GateOf(last.said).Some? then [GateOf(last.said).value] else []
  }

  /** Whether a record, coming where it does, is of its node's publication. */
  predicate IsPublication(before: seq<Record>, record: Record, lifecycle: bool) {
    record.node.Some? && Closing(DoingAfter(before, lifecycle)) && Publishes(record.said)
  }

  /** Whether `node` has published since it was last dispatched. */
  predicate Publishing(records: seq<Record>, node: Id, lifecycle: bool) {
    records != [] &&
    var before, last := records[..|records| - 1], records[|records| - 1];
    if last.node != Some(node) then Publishing(before, node, lifecycle)
    else if last.said.Dispatched? then false
    else IsPublication(before, last, lifecycle) || Publishing(before, node, lifecycle)
  }

  /** How many dispatches of a node went on to publish: each counted at the first record that says so. */
  function Attempts(records: seq<Record>, lifecycle: bool): nat {
    if records == [] then 0
    else
      var before, last := records[..|records| - 1], records[|records| - 1];
      Attempts(before, lifecycle) +
      if IsPublication(before, last, lifecycle) && !Publishing(before, last.node.value, lifecycle) then 1 else 0
  }

  ghost predicate IsPublishing(windows: set<Id>, records: seq<Record>, lifecycle: bool) {
    forall node :: node in windows <==> Publishing(records, node, lifecycle)
  }

  function True(publishing: map<Id, bool>): set<Id> {
    set node | node in publishing && publishing[node]
  }

  class Reading {
    const lifecycle: bool
    var dispatchedAt: Option<nat>
    var dispatches: nat
    var attempts: nat
    var publishing: map<Id, bool>
    var doing: Doing
    var gateRuns: seq<GateRun>
    var landed: Option<Said>
    ghost var taken: seq<Record>

    /** Everything read so far, and nothing else. */
    ghost predicate Valid()
      reads this
    {
      && doing == DoingAfter(taken, lifecycle)
      && IsFirstDispatch(taken, dispatchedAt)
      && dispatches == DispatchCount(taken)
      && gateRuns == GateRuns(taken)
      && landed == FirstLanding(taken)
      && Counts(True(publishing), attempts, taken, lifecycle)
    }

    constructor (lifecycle: bool)
      ensures Valid() && taken == [] && this.lifecycle == lifecycle
    {
      this.lifecycle := lifecycle;
      dispatchedAt, dispatches, attempts, publishing := None, 0, 0, map[];
      doing, gateRuns, landed, taken := UNDISPATCHED, [], None, [];
      new;
      assert True(publishing) == {};
    }

    /** Take one record: each thing it says of the change, in the order the source asks. */
    method Take(record: Record)
      requires Valid()
      modifies this
      ensures Valid() && taken == old(taken) + [record]
    {
      Note(record);
      Publish(record);
      DoingNext(taken, record, lifecycle);
      doing := After(doing, record, lifecycle);
      taken := taken + [record];
    }

    /** Its dispatch, gate run or landing. */
    method Note(record: Record)
      requires IsFirstDispatch(taken, dispatchedAt) && dispatches == DispatchCount(taken)
      requires gateRuns == GateRuns(taken) && landed == FirstLanding(taken)
      modifies this`dispatches, this`dispatchedAt, this`gateRuns, this`landed
      ensures IsFirstDispatch(taken + [record], dispatchedAt) && dispatches == DispatchCount(taken + [record])
      ensures gateRuns == GateRuns(taken + [record]) && landed == FirstLanding(taken + [record])
    {
      FoundNext(taken, record);
      if record.node.Some? {
        if record.said.Dispatched? {
          dispatches := dispatches + 1;
          if record.ts.Some? {
            dispatchedAt := Some(if dispatchedAt.Some? && dispatchedAt.value <= record.ts.value then dispatchedAt.value
              else record.ts.value);
          }
        }
        var gate := GateOf(record.said);
        if gate.Some? {
          gateRuns := gateRuns + [gate.value];
        }
        if record.said.Landed? && landed.None? {
          landed := Some(record.said);
        }
      }
      FirstDispatchNext(taken, record, old(dispatchedAt), dispatchedAt);
    }

    /** A dispatch closes the window its node published in before; a publication opens one. */
    method Publish(record: Record)
      requires Counts(True(publishing), attempts, taken, lifecycle) && doing == DoingAfter(taken, lifecycle)
      modifies this`publishing, this`attempts
      ensures Counts(True(publishing), attempts, taken + [record], lifecycle)
    {
      if record.node.None? {
        OthersLeave(taken, record, lifecycle, attempts, True(publishing));
        return;
      }
      var node := record.node.value;
      TrueIs(publishing, node);
      if record.said.Dispatched? {
        DispatchCloses(taken, record, node, lifecycle, attempts, True(publishing));
        if node in publishing && publishing[node] {
          attempts := attempts + 1;
        }
        publishing := publishing[node := false];
      } else if Closing(doing) && Publishes(record.said) {
        PublicationOpens(taken, record, node, lifecycle, attempts, True(publishing));
        publishing := publishing[node := true];
      } else {
        OthersLeave(taken, record, lifecycle, attempts, True(publishing));
      }
    }

    method TakeAll(records: seq<Record>)
      requires Valid() && taken == []
      modifies this
      ensures Valid() && taken == records
    {
      for i := 0 to |records|
        invariant Valid() && taken == records[..i]
      {
        Take(records[i]);
      }
    }

    /** What the records leave counted, once there are no more: the windows still open count too. */
    method Close() returns (all: nat)
      requires Valid()
      ensures all == Attempts(taken, lifecycle)
    {
      all := attempts + |True(publishing)|;
    }
  }

  lemma FrontIs(before: seq<Record>, record: Record, records: seq<Record>)
    requires records == before + [record]
    ensures records[..|records| - 1] == before && records[|records| - 1] == record
  {
  }

  lemma DoingNext(before: seq<Record>, record: Record, lifecycle: bool)
    ensures DoingAfter(before + [record], lifecycle) == After(DoingAfter(before, lifecycle), record, lifecycle)
  {
    FrontIs(before, record, before + [record]);
  }

  lemma FoundNext(before: seq<Record>, record: Record)
    ensures DispatchCount(before + [record]) == DispatchCount(before) + if Dispatches(record) then 1 else 0
    ensures GateRuns(before + [record]) == GateRuns(before) +
            if record.node.Some? && GateOf(record.said).Some? then [GateOf(record.said).value] else []
    ensures FirstLanding(before + [record]) ==
            if FirstLanding(before).None? && record.node.Some? && record.said.Landed? then Some(record.said)
            else FirstLanding(before)
  {
    FrontIs(before, record, before + [record]);
  }

  ghost predicate Counts(windows: set<Id>, closed: nat, records: seq<Record>, lifecycle: bool) {
    IsPublishing(windows, records, lifecycle) && closed + |windows| == Attempts(records, lifecycle)
  }

  lemma DispatchCloses(before: seq<Record>, record: Record, node: Id, lifecycle: bool, closed: nat, windows: set<Id>)
    requires Counts(windows, closed, before, lifecycle) && Dispatches(record) && record.node == Some(node)
    ensures Counts(windows - {node}, if node in windows then closed + 1 else closed, before + [record], lifecycle)
  {
    FrontIs(before, record, before + [record]);
  }

  lemma PublicationOpens(before: seq<Record>, record: Record, node: Id, lifecycle: bool, closed: nat, windows: set<Id>)
    requires Counts(windows, closed, before, lifecycle) && IsPublication(before, record, lifecycle) &&
      record.node == Some(node)
    ensures Counts(windows + {node}, closed, before + [record], lifecycle)
  {
    assert node in windows ==> windows + {node} == windows;
    assert node in windows <==> Publishing(before, node, lifecycle);
    FrontIs(before, record, before + [record]);
  }

  lemma OthersLeave(before: seq<Record>, record: Record, lifecycle: bool, closed: nat, windows: set<Id>)
    requires Counts(windows, closed, before, lifecycle)
    requires !Dispatches(record) && !IsPublication(before, record, lifecycle)
    ensures Counts(windows, closed, before + [record], lifecycle)
  {
    FrontIs(before, record, before + [record]);
  }

  lemma TrueIs(publishing: map<Id, bool>, node: Id)
    ensures True(publishing[node := false]) == True(publishing) - {node}
    ensures True(publishing[node := true]) == True(publishing) + {node}
  {
  }

  lemma FirstDispatchNext(before: seq<Record>, record: Record, first: Option<nat>, next: Option<nat>)
    requires IsFirstDispatch(before, first)
    requires next == if !Dispatches(record) || record.ts.None? then first
                     else Some(if first.Some? && first.value <= record.ts.value then first.value else record.ts.value)
    ensures IsFirstDispatch(before + [record], next)
  {
    var records := before + [record];
    if next.Some? {
      if next == first {
        var i :| 0 <= i < |before| && Dispatches(before[i]) && before[i].ts == first;
        assert records[i] == before[i];
      } else {
        assert records[|before|] == record;
      }
    }
  }

  // ---- what the records of a change keep ---------------------------------

  /** A change is doing something from its first dispatch on: no time of it is before every transition. */
  lemma DispatchOpensTheInterval(records: seq<Record>, lifecycle: bool, start: nat, t: nat)
    requires IsFirstDispatch(records, Some(start)) && start <= t
    ensures StateAt(DoingAfter(records, lifecycle).transitions, t).Some?
  {
    var i :| 0 <= i < |records| && Dispatches(records[i]) && records[i].ts == Some(start);
    var k := StampIsKept(records, lifecycle, start, i);
    var _ := LatestIsLatest(DoingAfter(records, lifecycle).transitions, t);
  }

  lemma {:induction false} StampIsKept(records: seq<Record>, lifecycle: bool, start: nat, i: nat) returns (k: nat)
    requires i < |records| && Dispatches(records[i]) && records[i].ts == Some(start)
    ensures k < |DoingAfter(records, lifecycle).transitions| &&
      DoingAfter(records, lifecycle).transitions[k].at == start
    decreases |records|
  {
    var before := records[..|records| - 1];
    if i == |records| - 1 {
      k := |DoingAfter(before, lifecycle).transitions|;
    } else {
      k := StampIsKept(before, lifecycle, start, i);
    }
  }

  predicate NeverPublishes(transitions: seq<Transition>) {
    forall i :: 0 <= i < |transitions| ==> transitions[i].to != State.Publication
  }

  /** A node that publishes nothing, and whose records no session wrote, spends no time publishing. */
  lemma {:induction false} NothingPublishedNoPublication(records: seq<Record>)
    requires forall i :: 0 <= i < |records| ==> !OfSession(records[i].said)
    ensures NeverPublishes(DoingAfter(records, false).transitions)
    ensures DoingAfter(records, false).heldFor.None?
  {
    if records != [] {
      assert !OfSession(records[|records| - 1].said);
      NothingPublishedNoPublication(records[..|records| - 1]);
    }
  }
}
