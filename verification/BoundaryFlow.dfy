/**
 What the checker's rules are for (src/boundary.rs, `check`): on a plan it accepts,
 private work reaches public output over an export edge, or it does not reach it.
 */
module BoundaryFlow {
  import opened Wrappers
  import opened Boundary
  import opened BoundaryPlan
  import opened BoundaryCheck

  /** Whether the node called `node` depends on the one called `dep`, both of this plan. */
  ghost predicate Feeds(plan: Plan, dep: Id, node: Id) {
    dep in Ids(plan.tasks) && exists i :: 0 <= i < |plan.tasks| && plan.tasks[i].id == node && dep in plan.tasks[i].deps
  }

  /** A path work takes through a plan, each node depending on the one before it. */
  ghost predicate Flow(plan: Plan, path: seq<Id>) {
    path != [] && forall i :: 0 <= i < |path| - 1 ==> Feeds(plan, path[i], path[i + 1])
  }

  ghost predicate NoExport(plan: Plan, path: seq<Id>) {
    forall i :: 0 <= i < |path| - 1 ==> !IsExport(plan.exportEdges, path[i], path[i + 1])
  }

  /** Whether `path` steps over an export edge, from a private producer to a public destination, at `i`. */
  ghost predicate Exports(plan: Plan, resolved: Resolved, path: seq<Id>, i: nat) {
    && i < |path| - 1
    && IsExport(plan.exportEdges, path[i], path[i + 1])
    && IsProducer(plan, resolved, path[i])
    && ClearanceIn(resolved, path[i + 1]) == Public && path[i + 1] in resolved.destinations
  }

  ghost predicate IsProducer(plan: Plan, resolved: Resolved, id: Id) {
    exists node :: node in plan.tasks && node.id == id && ClearanceIn(resolved, id) == Private
      && node.repo.Some? && node.publish == Preserve
  }

  lemma LeakIsRefused(plan: Plan, resolved: Resolved, i: nat, dep: Id)
    requires i < |plan.tasks| && plan.tasks[i].id in resolved.destinations && dep in plan.tasks[i].deps
    requires dep in Ids(plan.tasks) && ClearanceIn(resolved, dep) == Private
    requires !IsExport(plan.exportEdges, dep, plan.tasks[i].id)
    ensures !TaskHolds(plan, resolved, plan.tasks[i])
  {
    var j :| 0 <= j < |plan.tasks| && plan.tasks[j].id == dep;
  }

  /** An ordinary dependency on private work leaves the node that states it private. */
  lemma PrivateFeedsPrivate(plan: Plan, oracle: Oracle, resolved: Resolved, dep: Id, node: Id)
    requires WellFormed(plan, oracle) && IsResolved(plan, oracle, resolved) && TasksHold(plan, resolved)
    requires Feeds(plan, dep, node) && !IsExport(plan.exportEdges, dep, node)
    requires ClearanceIn(resolved, dep) == Private
    ensures ClearanceIn(resolved, node) == Private
  {
    var i :| 0 <= i < |plan.tasks| && plan.tasks[i].id == node && dep in plan.tasks[i].deps;
    var own, deps := OwnIn(plan.tasks, oracle), DepsIn(plan.tasks, plan.exportEdges);
    KeysAreIds(plan.tasks, oracle);
    RecordsAre(plan.tasks, plan.exportEdges, oracle, i);
    ClearanceIsInherited(plan, oracle, resolved, node);
    ClearanceIsInherited(plan, oracle, resolved, dep);
    PrivateUnfolds(own, deps, node);
    if own[node].None? {
      assert Inherits(own, deps, node, dep);
    } else if own[node] == Some(Public) {
      assert node in resolved.destinations;
      LeakIsRefused(plan, resolved, i, dep);
      assert false;
    }
  }

  /**
   What one step of a path keeps: an ordinary one, privacy; an export edge, the producer and the
   destination it names.
   */
  ghost predicate Contained(plan: Plan, resolved: Resolved) {
    && (forall dep, node :: Feeds(plan, dep, node) && ClearanceIn(resolved, dep) == Private ==>
          Steps(plan, resolved, dep, node))
    && forall id :: id in resolved.destinations ==> ClearanceIn(resolved, id) == Public
  }

  ghost predicate Steps(plan: Plan, resolved: Resolved, dep: Id, node: Id) {
    if IsExport(plan.exportEdges, dep, node) then
      IsProducer(plan, resolved, dep) && ClearanceIn(resolved, node) == Public && node in resolved.destinations
    else
      ClearanceIn(resolved, node) == Private
  }

  lemma AcceptedIsContained(
    plan: Plan, stage: Stage, oracle: Oracle, opaqueRule: OpaqueRule, terms: TermCheck, resolved: Resolved
  )
    requires WellFormed(plan, oracle) && IsResolved(plan, oracle, resolved)
    requires Accepted(plan, stage, opaqueRule, terms, resolved)
    ensures Contained(plan, resolved)
  {
    forall dep, node | Feeds(plan, dep, node) && ClearanceIn(resolved, dep) == Private
      ensures Steps(plan, resolved, dep, node)
    {
      if IsExport(plan.exportEdges, dep, node) {
        AnExportRunsOut(plan, stage, opaqueRule, terms, resolved, dep, node);
      } else {
        PrivateFeedsPrivate(plan, oracle, resolved, dep, node);
      }
    }
    forall id | id in resolved.destinations ensures ClearanceIn(resolved, id) == Public {
      DestinationsArePublic(plan, oracle, resolved, id);
    }
  }

  lemma DestinationsArePublic(plan: Plan, oracle: Oracle, resolved: Resolved, id: Id)
    requires WellFormed(plan, oracle) && IsResolved(plan, oracle, resolved) && id in resolved.destinations
    ensures ClearanceIn(resolved, id) == Public
  {
    var i :| 0 <= i < |plan.tasks| && OwnOf(plan.tasks[i], oracle) == Some(Public) && plan.tasks[i].id == id;
    RecordsAre(plan.tasks, plan.exportEdges, oracle, i);
    ClearanceIsInherited(plan, oracle, resolved, id);
    PrivateUnfolds(OwnIn(plan.tasks, oracle), DepsIn(plan.tasks, plan.exportEdges), id);
  }

  lemma AnExportRunsOut(
    plan: Plan, stage: Stage, opaqueRule: OpaqueRule, terms: TermCheck, resolved: Resolved, dep: Id, node: Id
  )
    requires Accepted(plan, stage, opaqueRule, terms, resolved) && IsExport(plan.exportEdges, dep, node)
    ensures IsProducer(plan, resolved, dep)
    ensures ClearanceIn(resolved, node) == Public && node in resolved.destinations
  {
    var n :| 0 <= n < |plan.exportEdges| && plan.exportEdges[n].from == dep && plan.exportEdges[n].to == node;
    assert RunsOut(NodesIn(plan.tasks), stage, resolved, plan.exportEdges[n]);
  }

  /** Noninterference: whatever private work reaches without crossing an export edge is private, and no destination. */
  lemma PrivateWorkStaysPrivate(
    plan: Plan, stage: Stage, oracle: Oracle, opaqueRule: OpaqueRule, terms: TermCheck, resolved: Resolved,
    path: seq<Id>
  )
    requires WellFormed(plan, oracle) && IsResolved(plan, oracle, resolved)
    requires Accepted(plan, stage, opaqueRule, terms, resolved)
    requires Flow(plan, path) && NoExport(plan, path) && ClearanceIn(resolved, path[0]) == Private
    ensures ClearanceIn(resolved, path[|path| - 1]) == Private && path[|path| - 1] !in resolved.destinations
  {
    OrdinaryWorkStays(plan, oracle, resolved);
    StaysPrivate(plan, resolved, path);
  }

  /** What one ordinary step of a path keeps, and that no destination is private. */
  ghost predicate OrdinaryStays(plan: Plan, resolved: Resolved) {
    && (forall dep, node :: Feeds(plan, dep, node) && ClearanceIn(resolved, dep) == Private ==>
          IsExport(plan.exportEdges, dep, node) || ClearanceIn(resolved, node) == Private)
    && forall id :: id in resolved.destinations ==> ClearanceIn(resolved, id) == Public
  }

  lemma OrdinaryWorkStays(plan: Plan, oracle: Oracle, resolved: Resolved)
    requires WellFormed(plan, oracle) && IsResolved(plan, oracle, resolved) && TasksHold(plan, resolved)
    ensures OrdinaryStays(plan, resolved)
  {
    forall dep, node | Feeds(plan, dep, node) && ClearanceIn(resolved, dep) == Private &&
      !IsExport(plan.exportEdges, dep, node)
      ensures ClearanceIn(resolved, node) == Private
    {
      PrivateFeedsPrivate(plan, oracle, resolved, dep, node);
    }
    forall id | id in resolved.destinations ensures ClearanceIn(resolved, id) == Public {
      DestinationsArePublic(plan, oracle, resolved, id);
    }
  }

  lemma {:induction false} StaysPrivate(plan: Plan, resolved: Resolved, path: seq<Id>)
    requires OrdinaryStays(plan, resolved) && Flow(plan, path) && NoExport(plan, path)
    requires ClearanceIn(resolved, path[0]) == Private
    ensures ClearanceIn(resolved, path[|path| - 1]) == Private && path[|path| - 1] !in resolved.destinations
  {
    if |path| > 1 {
      assert Feeds(plan, path[0], path[1]) && !IsExport(plan.exportEdges, path[0], path[1]);
      StaysPrivate(plan, resolved, path[1..]);
    }
  }

  /** Whether a path, where it carries private work and crosses no export edge, ends short of public output. */
  ghost predicate KeptIn(plan: Plan, resolved: Resolved, path: seq<Id>) {
    Flow(plan, path) && NoExport(plan, path) && ClearanceIn(resolved, path[0]) == Private ==>
      path[|path| - 1] !in resolved.destinations
  }

  /** The checker's rule for tasks is no stricter than it needs to be: it holds exactly where no path leaks. */
  lemma TaskRuleIsContainment(plan: Plan, oracle: Oracle, resolved: Resolved)
    requires WellFormed(plan, oracle) && IsResolved(plan, oracle, resolved)
    ensures TasksHold(plan, resolved) <==> forall path :: KeptIn(plan, resolved, path)
  {
    if TasksHold(plan, resolved) {
      OrdinaryWorkStays(plan, oracle, resolved);
      forall path ensures KeptIn(plan, resolved, path) {
        NoPathLeaks(plan, resolved, path);
      }
    } else {
      var path := ALeakIsAPath(plan, resolved);
    }
  }

  lemma NoPathLeaks(plan: Plan, resolved: Resolved, path: seq<Id>)
    requires OrdinaryStays(plan, resolved)
    ensures KeptIn(plan, resolved, path)
  {
    if Flow(plan, path) && NoExport(plan, path) && ClearanceIn(resolved, path[0]) == Private {
      StaysPrivate(plan, resolved, path);
    }
  }

  lemma ALeakIsAPath(plan: Plan, resolved: Resolved) returns (path: seq<Id>)
    requires !TasksHold(plan, resolved)
    ensures !KeptIn(plan, resolved, path)
  {
    var i :| 0 <= i < |plan.tasks| && !TaskHolds(plan, resolved, plan.tasks[i]);
    var node := plan.tasks[i];
    var dep, j :| dep in node.deps && 0 <= j < |plan.tasks| && plan.tasks[j].id == dep
      && ClearanceIn(resolved, dep) == Private && !IsExport(plan.exportEdges, dep, node.id);
    assert dep in Ids(plan.tasks);
    assert Feeds(plan, dep, node.id);
    path := [dep, node.id];
  }

  /** Whatever path private work takes to public output, it steps over an export edge on the way. */
  lemma PrivateWorkLeavesByExport(
    plan: Plan, stage: Stage, oracle: Oracle, opaqueRule: OpaqueRule, terms: TermCheck, resolved: Resolved,
    path: seq<Id>
  )
    requires WellFormed(plan, oracle) && IsResolved(plan, oracle, resolved)
    requires Accepted(plan, stage, opaqueRule, terms, resolved)
    requires Flow(plan, path) && ClearanceIn(resolved, path[0]) == Private
    requires ClearanceIn(resolved, path[|path| - 1]) == Public
    ensures exists i :: Exports(plan, resolved, path, i)
  {
    AcceptedIsContained(plan, stage, oracle, opaqueRule, terms, resolved);
    var _ := LeavesByExport(plan, resolved, path);
  }

  lemma {:induction false} LeavesByExport(plan: Plan, resolved: Resolved, path: seq<Id>) returns (i: nat)
    requires Contained(plan, resolved) && Flow(plan, path)
    requires ClearanceIn(resolved, path[0]) == Private && ClearanceIn(resolved, path[|path| - 1]) == Public
    ensures Exports(plan, resolved, path, i)
  {
    assert Feeds(plan, path[0], path[1]) && Steps(plan, resolved, path[0], path[1]);
    if IsExport(plan.exportEdges, path[0], path[1]) {
      return 0;
    }
    var rest := LeavesByExport(plan, resolved, path[1..]);
    i := rest + 1;
  }

  /** So a plan that exports nothing is accepted exactly where private work reaches no public output. */
  lemma WithoutExportsAcceptedExactly(
    plan: Plan, stage: Stage, oracle: Oracle, opaqueRule: OpaqueRule, terms: TermCheck, resolved: Resolved
  )
    requires WellFormed(plan, oracle) && IsResolved(plan, oracle, resolved) && plan.exportEdges == []
    ensures Accepted(plan, stage, opaqueRule, terms, resolved) <==> forall path :: KeptIn(plan, resolved, path)
  {
    TaskRuleIsContainment(plan, oracle, resolved);
  }

  /** A plan that does not mix private nodes with public destinations, and exports nothing, is accepted. */
  lemma OneClearanceIsAccepted(
    plan: Plan, stage: Stage, oracle: Oracle, opaqueRule: OpaqueRule, terms: TermCheck, resolved: Resolved
  )
    requires IsResolved(plan, oracle, resolved) && plan.exportEdges == []
    requires resolved.destinations == {} || forall id :: id in resolved.clearances ==> resolved.clearances[id] == Public
    ensures Accepted(plan, stage, opaqueRule, terms, resolved)
  {
    forall i | 0 <= i < |plan.tasks| ensures TaskHolds(plan, resolved, plan.tasks[i]) {
      forall dep | plan.tasks[i].id in resolved.destinations && dep in plan.tasks[i].deps
        ensures !Leaks(plan, resolved, plan.tasks[i], dep)
      {
        assert dep in Ids(plan.tasks) ==> dep in resolved.clearances;
      }
    }
  }
}
