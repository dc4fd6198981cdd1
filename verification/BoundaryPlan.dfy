/**
 One plan resolved: every node's clearance, where public work lands, and the scope the
 term check is asked over (src/boundary.rs, `resolve`).
 */
module BoundaryPlan {
  import opened Wrappers
  import opened Boundary

  datatype Resolved = Resolved(clearances: map<Id, Clearance>, destinations: set<Id>, scope: set<string>)

  /** The clearance of an id; an id outside the resolution counts as private. */
  function ClearanceIn(resolved: Resolved, id: Id): Clearance {
    if id in resolved.clearances then resolved.clearances[id] else Private
  }

  function Ids(tasks: seq<Node>): set<Id> {
    set i | 0 <= i < |tasks| :: tasks[i].id
  }

  ghost predicate UniqueIds(tasks: seq<Node>) {
    forall i, j :: 0 <= i < j < |tasks| ==> tasks[i].id != tasks[j].id
  }

  /** What the graph's own rules hold a plan to before this: one node an id, and no dependency cycle. */
  ghost predicate WellFormed(plan: Plan, oracle: Oracle) {
    UniqueIds(plan.tasks) && Acyclic(OwnIn(plan.tasks, oracle), DepsIn(plan.tasks, plan.exportEdges))
  }

  /** Where public work lands: nodes with a repository, whose own word is public. */
  function Destinations(tasks: seq<Node>, oracle: Oracle): set<Id> {
    set i | 0 <= i < |tasks| && OwnOf(tasks[i], oracle) == Some(Public) :: tasks[i].id
  }

  /** Whether `identity` is a private repository's that the node names. */
  ghost predicate NamesPrivate(node: Node, oracle: Oracle, identity: string) {
    AmongPrivate(RepositoriesOf(node), oracle, identity)
  }

  ghost predicate AmongPrivate(named: seq<string>, oracle: Oracle, identity: string) {
    exists repo :: repo in named && oracle(repo) == Repository(Private, identity)
  }

  ghost predicate InScope(tasks: seq<Node>, oracle: Oracle, identity: string) {
    exists i :: 0 <= i < |tasks| && NamesPrivate(tasks[i], oracle, identity)
  }

  ghost predicate IsResolved(plan: Plan, oracle: Oracle, resolved: Resolved) {
    && resolved.clearances.Keys == Ids(plan.tasks)
    && Faithful(OwnIn(plan.tasks, oracle), DepsIn(plan.tasks, plan.exportEdges), resolved.clearances)
    && resolved.destinations == Destinations(plan.tasks, oracle)
    && forall identity :: identity in resolved.scope <==> InScope(plan.tasks, oracle, identity)
  }

  // ---- resolving ---------------------------------------------------------

  /** What one node says of itself, and the private identities it names. */
  method Said(node: Node, oracle: Oracle) returns (clearance: Option<Clearance>, private: set<string>)
    ensures clearance == OwnOf(node, oracle)
    ensures forall identity :: identity in private <==> NamesPrivate(node, oracle, identity)
  {
    var named := RepositoriesOf(node);
    private := {};
    clearance := if node.classified == Private then Some(Private) else if named != [] then Some(Public) else None;
    for i := 0 to |named|
      invariant clearance == if node.classified == Private || AnyPrivate(named[..i], oracle) then Some(Private)
                             else if named != [] then Some(Public) else None
      invariant forall identity :: identity in private <==> AmongPrivate(named[..i], oracle, identity)
    {
      assert named[..i + 1] == named[..i] + [named[i]];
      var repository := oracle(named[i]);
      if repository.clearance == Private {
        clearance := Some(Private);
        private := private + {repository.identity};
      }
    }
    assert named[..|named|] == named;
  }

  /** Every node's own word, by id, with where public work lands and the run's term scope. */
  method SaidByEach(tasks: seq<Node>, oracle: Oracle) returns (own: Own, destinations: set<Id>, scope: set<string>)
    ensures own == OwnIn(tasks, oracle)
    ensures destinations == Destinations(tasks, oracle)
    ensures forall identity :: identity in scope <==> InScope(tasks, oracle, identity)
  {
    own, destinations, scope := map[], {}, {};
    for i := 0 to |tasks|
      invariant own == OwnIn(tasks[..i], oracle)
      invariant destinations == Destinations(tasks[..i], oracle)
      invariant forall identity :: identity in scope <==> InScope(tasks[..i], oracle, identity)
    {
      var clearance, private := Said(tasks[i], oracle);
      OneMore(tasks[..i], tasks[i], tasks[..i + 1], oracle);
      own := own[tasks[i].id := clearance];
      destinations := destinations + if clearance == Some(Public) then {tasks[i].id} else {};
      scope := scope + private;
    }
    assert tasks[..|tasks|] == tasks;
  }

  lemma OneMore(front: seq<Node>, last: Node, tasks: seq<Node>, oracle: Oracle)
    requires tasks == front + [last]
    ensures OwnIn(tasks, oracle) == OwnIn(front, oracle)[last.id := OwnOf(last, oracle)]
    ensures Destinations(tasks, oracle) ==
            Destinations(front, oracle) + if OwnOf(last, oracle) == Some(Public) then {last.id} else {}
    ensures forall identity :: InScope(tasks, oracle, identity) <==>
              InScope(front, oracle, identity) || NamesPrivate(last, oracle, identity)
  {
    assert tasks[..|tasks| - 1] == front && tasks[|tasks| - 1] == last;
    DestinationsGrow(front, last, tasks, oracle);
    forall identity
      ensures InScope(tasks, oracle, identity) <==>
        InScope(front, oracle, identity) || NamesPrivate(last, oracle, identity)
    {
      ScopeGrows(front, last, tasks, oracle, identity);
    }
  }

  lemma DestinationsGrow(front: seq<Node>, last: Node, tasks: seq<Node>, oracle: Oracle)
    requires tasks == front + [last]
    ensures Destinations(tasks, oracle) ==
            Destinations(front, oracle) + if OwnOf(last, oracle) == Some(Public) then {last.id} else {}
  {
    forall id | id in Destinations(front, oracle) ensures id in Destinations(tasks, oracle) {
      var i :| 0 <= i < |front| && OwnOf(front[i], oracle) == Some(Public) && front[i].id == id;
      assert tasks[i] == front[i];
    }
    assert tasks[|front|] == last;
  }

  lemma ScopeGrows(front: seq<Node>, last: Node, tasks: seq<Node>, oracle: Oracle, identity: string)
    requires tasks == front + [last]
    ensures InScope(tasks, oracle, identity) <==>
      InScope(front, oracle, identity) || NamesPrivate(last, oracle, identity)
  {
    if InScope(front, oracle, identity) {
      var i :| 0 <= i < |front| && NamesPrivate(front[i], oracle, identity);
      assert tasks[i] == front[i];
    }
    assert tasks[|front|] == last;
  }

  lemma {:induction false} KeysAreIds(tasks: seq<Node>, oracle: Oracle)
    ensures OwnIn(tasks, oracle).Keys == Ids(tasks)
  {
    if tasks != [] {
      var front, last := tasks[..|tasks| - 1], tasks[|tasks| - 1];
      assert tasks == front + [last];
      KeysAreIds(front, oracle);
      IdsGrow(front, last, tasks);
    }
  }

  lemma IdsGrow(front: seq<Node>, last: Node, tasks: seq<Node>)
    requires tasks == front + [last]
    ensures Ids(tasks) == Ids(front) + {last.id}
  {
    forall id | id in Ids(front) ensures id in Ids(tasks) {
      var i :| 0 <= i < |front| && front[i].id == id;
      assert tasks[i] == front[i];
    }
    assert tasks[|front|] == last;
  }

  /**
   Resolve a plan. Where its dependencies have a cycle, a clearance is still private only
   for a node that reaches something private.
   */
  method Resolve(plan: Plan, oracle: Oracle) returns (resolved: Resolved)
    ensures IsResolved(plan, oracle, resolved)
  {
    var own, destinations, scope := SaidByEach(plan.tasks, oracle);
    var clearances := InheritedByEach(plan.tasks, own, DepsIn(plan.tasks, plan.exportEdges), oracle);
    resolved := Resolved(clearances, destinations, scope);
  }

  lemma FaithfulNext(own: Own, deps: Deps, done: map<Id, Clearance>, id: Id, clearance: Clearance)
    requires Faithful(own, deps, done) && id in own && Settled(own, deps, id, clearance)
    ensures Faithful(own, deps, done[id := clearance])
  {
  }

  method InheritedByEach(
    tasks: seq<Node>, own: Own, deps: Deps, oracle: Oracle
  ) returns (clearances: map<Id, Clearance>)
    requires own == OwnIn(tasks, oracle)
    ensures clearances.Keys == Ids(tasks)
    ensures Faithful(own, deps, clearances)
  {
    KeysAreIds(tasks, oracle);
    var resolver := new Resolver(own, deps);
    clearances := map[];
    for i := 0 to |tasks|
      invariant resolver.own == own && resolver.deps == deps && resolver.visiting == {}
      invariant Faithful(own, deps, resolver.done) && Faithful(own, deps, clearances)
      invariant clearances.Keys == Ids(tasks[..i])
    {
      var clearance := resolver.Inherit(tasks[i].id);
      IdsGrow(tasks[..i], tasks[i], tasks[..i + 1]);
      FaithfulNext(own, deps, clearances, tasks[i].id, clearance);
      clearances := clearances[tasks[i].id := clearance];
    }
    assert tasks[..|tasks|] == tasks;
  }

  // ---- what a resolution is ----------------------------------------------

  /** On a plan the graph's rules accept, the walk's memo and its order leave no trace. */
  lemma ClearanceIsInherited(plan: Plan, oracle: Oracle, resolved: Resolved, id: Id)
    requires WellFormed(plan, oracle) && IsResolved(plan, oracle, resolved) && id in Ids(plan.tasks)
    ensures ClearanceIn(resolved, id) ==
      ClearanceOf(OwnIn(plan.tasks, oracle), DepsIn(plan.tasks, plan.exportEdges), id)
  {
    assert id in resolved.clearances;
  }

  /** What each node says of itself, and depends on, is its own record's. */
  lemma {:induction false} RecordsAre(tasks: seq<Node>, edges: seq<ExportEdge>, oracle: Oracle, i: nat)
    requires UniqueIds(tasks) && i < |tasks|
    ensures tasks[i].id in OwnIn(tasks, oracle) && OwnIn(tasks, oracle)[tasks[i].id] == OwnOf(tasks[i], oracle)
    ensures tasks[i].id in DepsIn(tasks, edges)
    ensures DepsIn(tasks, edges)[tasks[i].id] == Ordinary(tasks[i].deps, tasks[i].id, edges)
  {
    var last := |tasks| - 1;
    if i < last {
      RecordsAre(tasks[..last], edges, oracle, i);
    }
  }

  ghost predicate Names(node: Node, repo: string) {
    node.repo == Some(repo) || repo in node.repositories
  }

  ghost predicate NamesOneOf(node: Node, oracle: Oracle, clearance: Clearance) {
    exists repo :: Names(node, repo) && oracle(repo).clearance == clearance
  }

  /** Whether a plan holds a public task called `id`, with a repository, all of whose repositories are public. */
  ghost predicate Lands(tasks: seq<Node>, oracle: Oracle, id: Id) {
    exists i :: 0 <= i < |tasks| && tasks[i].id == id && tasks[i].classified == Public
      && NamesOneOf(tasks[i], oracle, Public) && !NamesOneOf(tasks[i], oracle, Private)
  }

  ghost predicate NamedByOne(tasks: seq<Node>, oracle: Oracle, identity: string) {
    exists i, repo :: 0 <= i < |tasks| && Names(tasks[i], repo) && oracle(repo) == Repository(Private, identity)
  }

  lemma NamedAre(node: Node, repo: string)
    ensures repo in RepositoriesOf(node) <==> Names(node, repo)
  {
  }

  /** What a node says of itself, in terms of the fields it is written with. */
  lemma OwnWordIs(node: Node, oracle: Oracle)
    ensures OwnOf(node, oracle) == Some(Private) <==>
      node.classified == Private || NamesOneOf(node, oracle, Private)
    ensures OwnOf(node, oracle) == Some(Public) <==>
      node.classified == Public && NamesOneOf(node, oracle, Public) && !NamesOneOf(node, oracle, Private)
  {
    var named := RepositoriesOf(node);
    if named != [] {
      NamedAre(node, named[0]);
    }
    forall repo ensures Names(node, repo) <==> exists i :: 0 <= i < |named| && named[i] == repo {
      NamedAre(node, repo);
    }
  }

  /** Which nodes a resolution is of, where public work lands, and what the term check is asked over. */
  lemma ResolutionIs(plan: Plan, oracle: Oracle, resolved: Resolved)
    requires IsResolved(plan, oracle, resolved)
    ensures forall id :: id in resolved.clearances <==> exists i :: 0 <= i < |plan.tasks| && plan.tasks[i].id == id
    ensures forall id :: id !in resolved.clearances ==> ClearanceIn(resolved, id) == Private
    ensures forall id :: id in resolved.destinations <==> Lands(plan.tasks, oracle, id)
    ensures forall identity :: identity in resolved.scope <==> NamedByOne(plan.tasks, oracle, identity)
  {
    forall i | 0 <= i < |plan.tasks|
      ensures OwnOf(plan.tasks[i], oracle) == Some(Public) <==>
        plan.tasks[i].classified == Public
        && NamesOneOf(plan.tasks[i], oracle, Public) && !NamesOneOf(plan.tasks[i], oracle, Private)
    {
      OwnWordIs(plan.tasks[i], oracle);
    }
    forall identity
      ensures identity in resolved.scope <==> NamedByOne(plan.tasks, oracle, identity)
    {
      ScopeIs(plan, oracle, identity);
    }
  }

  lemma ScopeIs(plan: Plan, oracle: Oracle, identity: string)
    ensures InScope(plan.tasks, oracle, identity) <==> NamedByOne(plan.tasks, oracle, identity)
  {
    forall i, repo | 0 <= i < |plan.tasks|
      ensures repo in RepositoriesOf(plan.tasks[i]) <==> Names(plan.tasks[i], repo)
    {
      NamedAre(plan.tasks[i], repo);
    }
    if InScope(plan.tasks, oracle, identity) {
      var i :| 0 <= i < |plan.tasks| && NamesPrivate(plan.tasks[i], oracle, identity);
      var repo :| repo in RepositoriesOf(plan.tasks[i]) && oracle(repo) == Repository(Private, identity);
      assert Names(plan.tasks[i], repo);
    }
    if i, repo :| 0 <= i < |plan.tasks| && Names(plan.tasks[i], repo) && oracle(repo) == Repository(Private, identity) {
      assert repo in RepositoriesOf(plan.tasks[i]);
      assert NamesPrivate(plan.tasks[i], oracle, identity);
    }
  }

  /** Whether two plans are one but for the order their tasks are written in. */
  ghost predicate SameTasks(plan: Plan, other: Plan) {
    plan.exportEdges == other.exportEdges && forall node :: node in plan.tasks <==> node in other.tasks
  }

  /** The order of a plan's tasks is no part of what it resolves to, and nor is the walk's. */
  lemma TaskOrderIsNoPart(plan: Plan, other: Plan, oracle: Oracle, resolved: Resolved, again: Resolved)
    requires WellFormed(plan, oracle) && WellFormed(other, oracle) && SameTasks(plan, other)
    requires IsResolved(plan, oracle, resolved) && IsResolved(other, oracle, again)
    ensures resolved == again
  {
    TaskOrderSaysNothing(plan.tasks, other.tasks, plan.exportEdges, oracle);
    SubPlan(plan.tasks, other.tasks, oracle);
    SubPlan(other.tasks, plan.tasks, oracle);
    SameClearances(plan, other, oracle, resolved, again);
    assert resolved.scope == again.scope;
  }

  lemma SameClearances(plan: Plan, other: Plan, oracle: Oracle, resolved: Resolved, again: Resolved)
    requires WellFormed(plan, oracle) && WellFormed(other, oracle)
    requires IsResolved(plan, oracle, resolved) && IsResolved(other, oracle, again)
    requires OwnIn(plan.tasks, oracle) == OwnIn(other.tasks, oracle)
    requires DepsIn(plan.tasks, plan.exportEdges) == DepsIn(other.tasks, other.exportEdges)
    ensures resolved.clearances == again.clearances
  {
    KeysAreIds(plan.tasks, oracle);
    KeysAreIds(other.tasks, oracle);
    forall id | id in resolved.clearances ensures resolved.clearances[id] == again.clearances[id] {
      ClearanceIsInherited(plan, oracle, resolved, id);
      ClearanceIsInherited(other, oracle, again, id);
    }
  }

  /** Whatever some tasks say, any tasks that include them say too. */
  lemma SubPlan(tasks: seq<Node>, other: seq<Node>, oracle: Oracle)
    requires forall node :: node in tasks ==> node in other
    ensures Ids(tasks) <= Ids(other) && Destinations(tasks, oracle) <= Destinations(other, oracle)
    ensures forall identity :: InScope(tasks, oracle, identity) ==> InScope(other, oracle, identity)
  {
    forall i | 0 <= i < |tasks| ensures exists j :: 0 <= j < |other| && other[j] == tasks[i] {
      assert tasks[i] in other;
    }
  }

  lemma TaskOrderSaysNothing(tasks: seq<Node>, other: seq<Node>, edges: seq<ExportEdge>, oracle: Oracle)
    requires UniqueIds(tasks) && UniqueIds(other)
    requires forall node :: node in tasks <==> node in other
    ensures OwnIn(tasks, oracle) == OwnIn(other, oracle) && DepsIn(tasks, edges) == DepsIn(other, edges)
  {
    SubRecords(tasks, other, edges, oracle);
    SubRecords(other, tasks, edges, oracle);
    var own, deps := OwnIn(tasks, oracle), DepsIn(tasks, edges);
    assert forall id :: id in own ==> own[id] == OwnIn(other, oracle)[id];
    assert forall id :: id in deps ==> deps[id] == DepsIn(other, edges)[id];
  }

  lemma SubRecords(tasks: seq<Node>, other: seq<Node>, edges: seq<ExportEdge>, oracle: Oracle)
    requires UniqueIds(tasks) && UniqueIds(other)
    requires forall node :: node in tasks ==> node in other
    ensures forall id :: id in OwnIn(tasks, oracle) ==>
      id in OwnIn(other, oracle) && OwnIn(other, oracle)[id] == OwnIn(tasks, oracle)[id]
    ensures forall id :: id in DepsIn(tasks, edges) ==>
      id in DepsIn(other, edges) && DepsIn(other, edges)[id] == DepsIn(tasks, edges)[id]
  {
    KeysAreIds(tasks, oracle);
    DepsKeysAreIds(tasks, edges);
    forall id | id in Ids(tasks)
      ensures id in OwnIn(other, oracle) && OwnIn(other, oracle)[id] == OwnIn(tasks, oracle)[id]
      ensures id in DepsIn(other, edges) && DepsIn(other, edges)[id] == DepsIn(tasks, edges)[id]
    {
      var i :| 0 <= i < |tasks| && tasks[i].id == id;
      assert tasks[i] in other;
      var j :| 0 <= j < |other| && other[j] == tasks[i];
      RecordsAre(tasks, edges, oracle, i);
      RecordsAre(other, edges, oracle, j);
    }
  }

  lemma {:induction false} DepsKeysAreIds(tasks: seq<Node>, edges: seq<ExportEdge>)
    ensures DepsIn(tasks, edges).Keys == Ids(tasks)
  {
    if tasks != [] {
      var front, last := tasks[..|tasks| - 1], tasks[|tasks| - 1];
      assert tasks == front + [last];
      DepsKeysAreIds(front, edges);
      IdsGrow(front, last, tasks);
    }
  }

  /** The same plan, with some of its tasks marked private. */
  ghost predicate MarkedStricter(plan: Plan, stricter: Plan) {
    && plan.exportEdges == stricter.exportEdges && |plan.tasks| == |stricter.tasks|
    && forall i :: 0 <= i < |plan.tasks| ==> RecordStricter(plan.tasks[i], stricter.tasks[i])
  }

  ghost predicate RecordStricter(node: Node, stricter: Node) {
    && stricter.id == node.id && stricter.deps == node.deps
    && RepositoriesOf(stricter) == RepositoriesOf(node)
    && (node.classified == Private ==> stricter.classified == Private)
  }

  ghost predicate HostStricter(oracle: Oracle, stricter: Oracle) {
    forall repo :: oracle(repo).clearance == Private ==> stricter(repo).clearance == Private
  }

  /** Marking any tasks, and any repositories, private turns no private node public. */
  lemma StricterDowngradesNothing(
    plan: Plan, oracle: Oracle, resolved: Resolved, stricter: Plan, host: Oracle, again: Resolved, id: Id
  )
    requires MarkedStricter(plan, stricter) && HostStricter(oracle, host)
    requires IsResolved(plan, oracle, resolved) && IsResolved(stricter, host, again) && WellFormed(stricter, host)
    requires ClearanceIn(resolved, id) == Private
    ensures ClearanceIn(again, id) == Private
  {
    RecordsStricter(plan.tasks, stricter.tasks, plan.exportEdges, oracle, host);
    if id in resolved.clearances {
      KeysAreIds(plan.tasks, oracle);
      KeysAreIds(stricter.tasks, host);
      NothingIsDowngraded(OwnIn(plan.tasks, oracle), OwnIn(stricter.tasks, host), DepsIn(plan.tasks, plan.exportEdges),
        id);
    } else {
      KeysAreIds(plan.tasks, oracle);
      KeysAreIds(stricter.tasks, host);
    }
  }

  lemma {:induction false} RecordsStricter(
    tasks: seq<Node>, stricter: seq<Node>, edges: seq<ExportEdge>, oracle: Oracle, host: Oracle
  )
    requires |tasks| == |stricter| && forall i :: 0 <= i < |tasks| ==> RecordStricter(tasks[i], stricter[i])
    requires HostStricter(oracle, host)
    ensures DepsIn(stricter, edges) == DepsIn(tasks, edges)
    ensures OwnIn(tasks, oracle).Keys == OwnIn(stricter, host).Keys
    ensures forall id :: id in OwnIn(tasks, oracle) ==>
              OwnIn(stricter, host)[id] == OwnIn(tasks, oracle)[id] || OwnIn(stricter, host)[id] == Some(Private)
  {
    if tasks != [] {
      var last := |tasks| - 1;
      RecordsStricter(tasks[..last], stricter[..last], edges, oracle, host);
      OwnStricter(tasks[last], stricter[last], oracle, host);
    }
  }

  lemma OwnStricter(node: Node, stricter: Node, oracle: Oracle, host: Oracle)
    requires RecordStricter(node, stricter) && HostStricter(oracle, host)
    ensures OwnOf(stricter, host) == OwnOf(node, oracle) || OwnOf(stricter, host) == Some(Private)
  {
    var named := RepositoriesOf(node);
    if AnyPrivate(named, oracle) {
      var i :| 0 <= i < |named| && oracle(named[i]).clearance == Private;
      assert host(named[i]).clearance == Private;
    }
  }
}
