/**
 The plan checker (src/boundary.rs, `check_edges` and `check`), and what an accepted
 plan is worth: private work reaches public output over an export edge or not at all.
 */
module BoundaryCheck {
  import opened Splitting
  import opened Wrappers
  import opened Boundary
  import opened BoundaryPlan

  /** Which rule a plan breaks: an edge and a task are named by their place, from one. */
  datatype Refusal =
    | OpaqueRefused(edge: nat)
    | Dangling(edge: nat, isFrom: bool)
    | Twice(edge: nat, first: nat)
    | TwoIntoOne(edge: nat, first: nat)
    | NotNormalized(edge: nat, isSource: bool)
    | NotADependency(edge: nat)
    | NotAProducer(edge: nat)
    | NotAConsumer(edge: nat)
    | AlternateContext(edge: nat)
    | PrivateDependency(task: nat, besideExport: bool)
    | NotNeutral(edge: nat)

  datatype Stage = Load | Edit

  /** Whether a list of accepted opaque files is one the exporter takes. */
  type OpaqueRule = seq<string> -> bool

  /** Whether a consumer's public fields, and its edge's directories, are neutral over a scope. */
  type TermCheck = (Node, ExportEdge, set<string>) -> bool

  // ---- a directory -------------------------------------------------------

  predicate Normalized(directory: string) {
    && directory != "" && directory[0] != '/' && '\\' !in directory
    && forall segment :: segment in Split(directory, '/') ==> segment !in {"", ".", "..", ".git"}
  }

  ghost predicate IsPath(segments: seq<string>, path: string) {
    && segments != [] && Without(segments, '/') && Join(segments, '/') == path
    && forall i :: 0 <= i < |segments| ==> segments[i] !in {"", ".", "..", ".git"}
  }

  /** Whether a directory is its own segments with a slash between them, none of which leads elsewhere. */
  ghost predicate StaysWithin(directory: string) {
    '\\' !in directory && exists segments :: IsPath(segments, directory)
  }

  lemma NormalizedStaysWithin(directory: string)
    ensures Normalized(directory) <==> StaysWithin(directory)
  {
    if Normalized(directory) {
      NormalizedIsPath(directory, Split(directory, '/'));
    }
    if segments :| '\\' !in directory && IsPath(segments, directory) {
      PathIsNormalized(directory, segments);
    }
  }

  lemma NormalizedIsPath(directory: string, segments: seq<string>)
    requires segments == Split(directory, '/')
    requires forall segment :: segment in segments ==> segment !in {"", ".", "..", ".git"}
    ensures IsPath(segments, directory)
  {
    JoinSplit(directory, '/');
    forall i | 0 <= i < |segments| ensures segments[i] !in {"", ".", "..", ".git"} {
      assert segments[i] in segments;
    }
  }

  lemma PathIsNormalized(directory: string, segments: seq<string>)
    requires IsPath(segments, directory)
    ensures directory != "" && directory[0] != '/' && segments == Split(directory, '/')
  {
    assert segments[0] !in {"", ".", "..", ".git"} && '/' !in segments[0];
    SplitJoin(segments, '/');
    JoinStarts(segments, '/');
  }

  // ---- the rules ---------------------------------------------------------

  predicate Ends(edge: ExportEdge, ids: set<Id>) {
    edge.from in ids && edge.to in ids
  }

  ghost predicate Alone(edges: seq<ExportEdge>, n: nat)
    requires n < |edges|
  {
    forall m :: 0 <= m < n ==> edges[m].to != edges[n].to
  }

  ghost predicate WellShaped(edges: seq<ExportEdge>, ids: set<Id>, opaqueRule: OpaqueRule, n: nat)
    requires n < |edges|
  {
    && opaqueRule(edges[n].acceptedOpaque) && Ends(edges[n], ids) && Alone(edges, n)
    && StaysWithin(edges[n].sourceDirectory) && StaysWithin(edges[n].targetDirectory)
  }

  /** Whether the first node called `node` states `dep`. */
  ghost predicate Depends(tasks: seq<Node>, node: Id, dep: Id) {
    exists i :: 0 <= i < |tasks| && IsFirst(tasks, node, i) && dep in tasks[i].deps
  }

  ghost predicate IsFirst(tasks: seq<Node>, id: Id, i: nat)
    requires i < |tasks|
  {
    tasks[i].id == id && forall j :: 0 <= j < i ==> tasks[j].id != id
  }

  /** What every export edge of a plan keeps, whatever its repositories are. */
  ghost predicate EdgesHold(plan: Plan, opaqueRule: OpaqueRule) {
    forall n :: 0 <= n < |plan.exportEdges| ==>
      && WellShaped(plan.exportEdges, Ids(plan.tasks), opaqueRule, n)
      && Depends(plan.tasks, plan.exportEdges[n].to, plan.exportEdges[n].from)
  }

  ghost predicate ShapesHold(plan: Plan, opaqueRule: OpaqueRule, n: nat)
    requires n <= |plan.exportEdges|
  {
    forall m :: 0 <= m < n ==> WellShaped(plan.exportEdges, Ids(plan.tasks), opaqueRule, m)
  }

  /** Whether a refusal of one edge's shape names the first rule that edge breaks, beside the edges before it. */
  ghost predicate IsShapeFault(edges: seq<ExportEdge>, ids: set<Id>, opaqueRule: OpaqueRule, n: nat, refusal: Refusal)
    requires n < |edges|
  {
    var edge := edges[n];
    match refusal
    case OpaqueRefused(_) => !opaqueRule(edge.acceptedOpaque)
    case Dangling(_, isFrom) =>
      opaqueRule(edge.acceptedOpaque) && (if isFrom then edge.from !in ids else edge.from in ids && edge.to !in ids)
    case Twice(_, first) =>
      && opaqueRule(edge.acceptedOpaque) && edge.from in ids && edge.to in ids
      && 0 < first <= n && edges[first - 1].from == edge.from && edges[first - 1].to == edge.to
    case TwoIntoOne(_, first) =>
      && opaqueRule(edge.acceptedOpaque) && edge.from in ids && edge.to in ids
      && (forall m :: 0 <= m < n ==> edges[m].from != edge.from || edges[m].to != edge.to)
      && 0 < first <= n && edges[first - 1].to == edge.to
    case NotNormalized(_, isSource) =>
      && opaqueRule(edge.acceptedOpaque) && edge.from in ids && edge.to in ids && Alone(edges, n)
      && (isSource <==> !StaysWithin(edge.sourceDirectory))
      && (!isSource ==> !StaysWithin(edge.targetDirectory))
    case _ => false
  }

  /**
   Whether a refusal names the first rule of shape the first edge to break one breaks, or else the
   first not stated.
   */
  ghost predicate BreaksShape(plan: Plan, opaqueRule: OpaqueRule, refusal: Refusal) {
    var edges := plan.exportEdges;
    match refusal
    case NotADependency(n) =>
      && 0 < n <= |edges| && ShapesHold(plan, opaqueRule, |edges|)
      && (forall m :: 0 <= m < n - 1 ==> Depends(plan.tasks, edges[m].to, edges[m].from))
      && !Depends(plan.tasks, edges[n - 1].to, edges[n - 1].from)
    case PrivateDependency(_, _) => false
    case _ =>
      && 0 < refusal.edge <= |edges| && ShapesHold(plan, opaqueRule, refusal.edge - 1)
      && IsShapeFault(edges, Ids(plan.tasks), opaqueRule, refusal.edge - 1, refusal)
  }

  predicate Producer(resolved: Resolved, node: Node) {
    ClearanceIn(resolved, node.id) == Private && node.repo.Some? && node.publish == Preserve
  }

  predicate Consumer(resolved: Resolved, node: Node) {
    ClearanceIn(resolved, node.id) == Public && node.id in resolved.destinations
  }

  predicate OwnContext(stage: Stage, node: Node) {
    node.baseBranch.None? && (stage == Load ==> node.branch.None? && node.resume.None?)
  }

  /** Every task by its id. */
  function NodesIn(tasks: seq<Node>): (nodes: map<Id, Node>)
    ensures forall id :: id in nodes ==> nodes[id] in tasks && nodes[id].id == id
    ensures forall i :: 0 <= i < |tasks| ==> tasks[i].id in nodes
  {
    if tasks == [] then map[]
    else
      assert tasks == tasks[..|tasks| - 1] + [tasks[|tasks| - 1]];
      NodesIn(tasks[..|tasks| - 1])[tasks[|tasks| - 1].id := tasks[|tasks| - 1]]
  }

  lemma OneMoreNode(front: seq<Node>, last: Node, tasks: seq<Node>)
    requires tasks == front + [last]
    ensures NodesIn(tasks) == NodesIn(front)[last.id := last]
  {
    assert tasks[..|tasks| - 1] == front;
  }

  /** Where two tasks have one id, the last of them is the one held, whatever is before it. */
  lemma {:induction false} TheLastIsHeld(before: seq<Node>, node: Node, after: seq<Node>, tasks: seq<Node>)
    requires tasks == before + [node] + after && forall j :: 0 <= j < |after| ==> after[j].id != node.id
    ensures node.id in NodesIn(tasks) && NodesIn(tasks)[node.id] == node
    decreases |after|
  {
    if after == [] {
      OneMoreNode(before, node, tasks);
    } else {
      var less, last := after[..|after| - 1], after[|after| - 1];
      var front := before + [node] + less;
      TheLastIsHeld(before, node, less, front);
      OneMoreNode(front, last, tasks);
    }
  }

  /** Whether an edge runs from a private preserving producer to a public destination with no other context. */
  ghost predicate RunsOut(nodes: map<Id, Node>, stage: Stage, resolved: Resolved, edge: ExportEdge) {
    && edge.from in nodes && edge.to in nodes
    && ClearanceIn(resolved, nodes[edge.from].id) == Private
    && nodes[edge.from].repo.Some? && nodes[edge.from].publish == Preserve
    && ClearanceIn(resolved, nodes[edge.to].id) == Public && nodes[edge.to].id in resolved.destinations
    && nodes[edge.to].baseBranch.None?
    && (stage == Load ==> nodes[edge.to].branch.None? && nodes[edge.to].resume.None?)
  }

  /** Whether `dep` would carry private work into `node` over an ordinary dependency. */
  predicate Leaks(plan: Plan, resolved: Resolved, node: Node, dep: Id) {
    && dep in Ids(plan.tasks) && ClearanceIn(resolved, dep) == Private
    && !IsExport(plan.exportEdges, dep, node.id)
  }

  /** Whether a task, if public work lands from it, depends on no private task but over an export edge. */
  ghost predicate TaskHolds(plan: Plan, resolved: Resolved, node: Node) {
    node.id in resolved.destinations ==>
      forall dep, i ::
        dep in node.deps && 0 <= i < |plan.tasks| && plan.tasks[i].id == dep &&
          ClearanceIn(resolved, dep) == Private ==>
          exists n :: 0 <= n < |plan.exportEdges| && plan.exportEdges[n].from == dep &&
            plan.exportEdges[n].to == node.id
  }

  predicate Neutral(nodes: map<Id, Node>, terms: TermCheck, resolved: Resolved, edge: ExportEdge) {
    edge.to in nodes && terms(nodes[edge.to], edge, resolved.scope)
  }

  /** Everything the checker holds a plan to. */
  ghost predicate Accepted(plan: Plan, stage: Stage, opaqueRule: OpaqueRule, terms: TermCheck, resolved: Resolved) {
    && EdgesHold(plan, opaqueRule)
    && AllRunOut(plan, stage, resolved) && TasksHold(plan, resolved)
    && (forall n :: 0 <= n < |plan.exportEdges| ==> Neutral(NodesIn(plan.tasks), terms, resolved, plan.exportEdges[n]))
  }

  /** Whether a refusal names what the first edge not to run out lacks first. */
  ghost predicate BreaksRun(
    edges: seq<ExportEdge>, nodes: map<Id, Node>, stage: Stage, resolved: Resolved, refusal: Refusal
  ) {
    && (refusal.NotAProducer? || refusal.NotAConsumer? || refusal.AlternateContext?)
    && 0 < refusal.edge <= |edges|
    && (forall m :: 0 <= m < refusal.edge - 1 ==> RunsOut(nodes, stage, resolved, edges[m]))
    && edges[refusal.edge - 1].from in nodes && edges[refusal.edge - 1].to in nodes
    && IsRunFault(nodes[edges[refusal.edge - 1].from], nodes[edges[refusal.edge - 1].to], stage, resolved, refusal)
  }

  ghost predicate IsRunFault(producer: Node, consumer: Node, stage: Stage, resolved: Resolved, refusal: Refusal) {
    var preserves := ClearanceIn(resolved, producer.id) == Private && producer.repo.Some? &&
      producer.publish == Preserve;
    var lands := ClearanceIn(resolved, consumer.id) == Public && consumer.id in resolved.destinations;
    match refusal
    case NotAProducer(_) => !preserves
    case NotAConsumer(_) => preserves && !lands
    case AlternateContext(_) =>
      preserves && lands
      && (consumer.baseBranch.Some? || (stage == Load && (consumer.branch.Some? || consumer.resume.Some?)))
    case _ => false
  }

  /** Whether a refusal names the first task to leak, where its id first stands, and whether it has an edge besides. */
  ghost predicate BreaksTask(plan: Plan, resolved: Resolved, refusal: Refusal) {
    && refusal.PrivateDependency? && 0 < refusal.task <= |plan.tasks|
    && (exists i: nat :: FirstToLeak(plan, resolved, i) && IsFirst(plan.tasks, plan.tasks[i].id, refusal.task - 1))
    && (refusal.besideExport <==>
          exists n :: 0 <= n < |plan.exportEdges| && plan.exportEdges[n].to == plan.tasks[refusal.task - 1].id)
  }

  ghost predicate FirstToLeak(plan: Plan, resolved: Resolved, i: nat) {
    && i < |plan.tasks| && !TaskHolds(plan, resolved, plan.tasks[i])
    && forall k :: 0 <= k < i ==> TaskHolds(plan, resolved, plan.tasks[k])
  }

  /** Whether a refusal names the first edge whose words are not neutral. */
  ghost predicate BreaksTerm(
    edges: seq<ExportEdge>, nodes: map<Id, Node>, terms: TermCheck, resolved: Resolved, refusal: Refusal
  ) {
    && refusal.NotNeutral? && 0 < refusal.edge <= |edges| && !Neutral(nodes, terms, resolved, edges[refusal.edge - 1])
    && forall m :: 0 <= m < refusal.edge - 1 ==> Neutral(nodes, terms, resolved, edges[m])
  }

  ghost predicate AllRunOut(plan: Plan, stage: Stage, resolved: Resolved) {
    forall n :: 0 <= n < |plan.exportEdges| ==> RunsOut(NodesIn(plan.tasks), stage, resolved, plan.exportEdges[n])
  }

  ghost predicate TasksHold(plan: Plan, resolved: Resolved) {
    forall i :: 0 <= i < |plan.tasks| ==> TaskHolds(plan, resolved, plan.tasks[i])
  }

  /**
   Whether a refusal is of the first rule a plan breaks, in the order the rules are asked, where it
   first breaks it.
   */
  ghost predicate Breaks(
    plan: Plan, stage: Stage, opaqueRule: OpaqueRule, terms: TermCheck, resolved: Resolved, refusal: Refusal
  ) {
    || BreaksShape(plan, opaqueRule, refusal)
    || (EdgesHold(plan, opaqueRule) && BreaksRun(plan.exportEdges, NodesIn(plan.tasks), stage, resolved, refusal))
    || (EdgesHold(plan, opaqueRule) && AllRunOut(plan, stage, resolved) && BreaksTask(plan, resolved, refusal))
    || (EdgesHold(plan, opaqueRule) && AllRunOut(plan, stage, resolved) && TasksHold(plan, resolved)
        && BreaksTerm(plan.exportEdges, NodesIn(plan.tasks), terms, resolved, refusal))
  }

  predicate ConsumesOne(edges: seq<ExportEdge>, id: Id) {
    exists m :: 0 <= m < |edges| && edges[m].to == id
  }

  // ---- the checker -------------------------------------------------------

  /** Whether `seen` numbers just the ends the first `n` edges join. */
  ghost predicate PairsSeen(edges: seq<ExportEdge>, n: nat, seen: map<(Id, Id), nat>)
    requires n <= |edges|
  {
    && (forall key :: key in seen ==> 0 < seen[key] <= n && (edges[seen[key] - 1].from, edges[seen[key] - 1].to) == key)
    && forall m :: 0 <= m < n ==> (edges[m].from, edges[m].to) in seen
  }

  /** Whether `consumers` numbers just the nodes the first `n` edges lead into. */
  ghost predicate ConsumersSeen(edges: seq<ExportEdge>, n: nat, consumers: map<Id, nat>)
    requires n <= |edges|
  {
    && (forall id :: id in consumers ==> 0 < consumers[id] <= n && edges[consumers[id] - 1].to == id)
    && forall m :: 0 <= m < n ==> edges[m].to in consumers
  }

  lemma PairsNext(edges: seq<ExportEdge>, n: nat, next: nat, seen: map<(Id, Id), nat>, key: (Id, Id))
    requires next == n + 1 <= |edges| && PairsSeen(edges, n, seen) && key == (edges[n].from, edges[n].to)
    ensures PairsSeen(edges, next, seen[key := next])
  {
  }

  lemma ConsumersNext(edges: seq<ExportEdge>, n: nat, next: nat, consumers: map<Id, nat>, id: Id)
    requires next == n + 1 <= |edges| && ConsumersSeen(edges, n, consumers) && id == edges[n].to
    ensures ConsumersSeen(edges, next, consumers[id := next])
  {
  }

  /** Which of an edge's directories leads out of its repository first. */
  method DirectoriesOf(edge: ExportEdge, number: nat) returns (fault: Option<Refusal>)
    ensures fault ==
      if !StaysWithin(edge.sourceDirectory) then Some(NotNormalized(number, true))
      else if !StaysWithin(edge.targetDirectory) then Some(NotNormalized(number, false))
      else None
  {
    NormalizedStaysWithin(edge.sourceDirectory);
    NormalizedStaysWithin(edge.targetDirectory);
    if !Normalized(edge.sourceDirectory) {
      return Some(NotNormalized(number, true));
    }
    if !Normalized(edge.targetDirectory) {
      return Some(NotNormalized(number, false));
    }
    return None;
  }

  /** An edge's first fault of shape, beside the edges before it. */
  method ShapeOf(
    edges: seq<ExportEdge>, ids: set<Id>, n: nat, seen: map<(Id, Id), nat>, consumers: map<Id, nat>,
    opaqueRule: OpaqueRule
  ) returns (fault: Option<Refusal>)
    requires n < |edges| && PairsSeen(edges, n, seen) && ConsumersSeen(edges, n, consumers)
    ensures fault.None? <==> WellShaped(edges, ids, opaqueRule, n)
    ensures fault.Some? ==> IsShapeFault(edges, ids, opaqueRule, n, fault.value) && fault.value.edge == n + 1
  {
    var edge := edges[n];
    if !opaqueRule(edge.acceptedOpaque) {
      return Some(OpaqueRefused(n + 1));
    }
    if edge.from !in ids {
      return Some(Dangling(n + 1, true));
    }
    if edge.to !in ids {
      return Some(Dangling(n + 1, false));
    }
    if (edge.from, edge.to) in seen {
      return Some(Twice(n + 1, seen[(edge.from, edge.to)]));
    }
    if edge.to in consumers {
      return Some(TwoIntoOne(n + 1, consumers[edge.to]));
    }
    fault := DirectoriesOf(edge, n + 1);
  }

  lemma ShapesNext(plan: Plan, opaqueRule: OpaqueRule, n: nat, next: nat)
    requires next == n + 1 <= |plan.exportEdges| && ShapesHold(plan, opaqueRule, n)
    requires WellShaped(plan.exportEdges, Ids(plan.tasks), opaqueRule, n)
    ensures ShapesHold(plan, opaqueRule, next)
  {
  }

  method CheckShapes(plan: Plan, opaqueRule: OpaqueRule) returns (fault: Option<Refusal>)
    ensures fault.None? <==> ShapesHold(plan, opaqueRule, |plan.exportEdges|)
    ensures fault.Some? ==> BreaksShape(plan, opaqueRule, fault.value)
  {
    var edges := plan.exportEdges;
    var seen: map<(Id, Id), nat>, consumers: map<Id, nat>, n := map[], map[], 0;
    while n < |edges|
      invariant n <= |edges| && PairsSeen(edges, n, seen) && ConsumersSeen(edges, n, consumers)
      invariant ShapesHold(plan, opaqueRule, n)
    {
      fault := ShapeOf(edges, Ids(plan.tasks), n, seen, consumers, opaqueRule);
      if fault.Some? {
        return;
      }
      var edge, next := edges[n], n + 1;
      PairsNext(edges, n, next, seen, (edge.from, edge.to));
      ConsumersNext(edges, n, next, consumers, edge.to);
      ShapesNext(plan, opaqueRule, n, next);
      seen, consumers, n := seen[(edge.from, edge.to) := next], consumers[edge.to := next], next;
    }
    fault := None;
  }

  /** Where `id` first stands in the plan, from one. */
  method Position(tasks: seq<Node>, id: Id) returns (place: nat)
    requires id in Ids(tasks)
    ensures 0 < place <= |tasks| && IsFirst(tasks, id, place - 1)
  {
    place := 1;
    while tasks[place - 1].id != id
      invariant 0 < place <= |tasks|
      invariant forall i :: 0 <= i < place - 1 ==> tasks[i].id != id
      decreases |tasks| - place
    {
      place := place + 1;
    }
  }

  /** Check every export edge against the plan alone, in the order the edges are listed. */
  method CheckEdges(plan: Plan, opaqueRule: OpaqueRule) returns (fault: Option<Refusal>)
    ensures fault.None? <==> EdgesHold(plan, opaqueRule)
    ensures fault.Some? ==> BreaksShape(plan, opaqueRule, fault.value)
  {
    fault := CheckShapes(plan, opaqueRule);
    if fault.None? {
      fault := CheckStated(plan, opaqueRule);
    }
  }

  method CheckStated(plan: Plan, opaqueRule: OpaqueRule) returns (fault: Option<Refusal>)
    requires ShapesHold(plan, opaqueRule, |plan.exportEdges|)
    ensures fault.None? <==> EdgesHold(plan, opaqueRule)
    ensures fault.Some? ==> BreaksShape(plan, opaqueRule, fault.value)
  {
    for n := 0 to |plan.exportEdges|
      invariant forall m :: 0 <= m < n ==> Depends(plan.tasks, plan.exportEdges[m].to, plan.exportEdges[m].from)
    {
      var edge := plan.exportEdges[n];
      assert WellShaped(plan.exportEdges, Ids(plan.tasks), opaqueRule, n);
      var place := Position(plan.tasks, edge.to);
      if edge.from !in plan.tasks[place - 1].deps {
        return Some(NotADependency(n + 1));
      }
    }
    return None;
  }

  method RunOf(
    nodes: map<Id, Node>, edges: seq<ExportEdge>, n: nat, stage: Stage, resolved: Resolved
  ) returns (fault: Option<Refusal>)
    requires n < |edges| && Ends(edges[n], nodes.Keys)
    requires forall m :: 0 <= m < n ==> RunsOut(nodes, stage, resolved, edges[m])
    ensures fault.None? <==> RunsOut(nodes, stage, resolved, edges[n])
    ensures fault.Some? ==> BreaksRun(edges, nodes, stage, resolved, fault.value)
  {
    var edge := edges[n];
    if !Producer(resolved, nodes[edge.from]) {
      return Some(NotAProducer(n + 1));
    }
    if !Consumer(resolved, nodes[edge.to]) {
      return Some(NotAConsumer(n + 1));
    }
    if !OwnContext(stage, nodes[edge.to]) {
      return Some(AlternateContext(n + 1));
    }
    return None;
  }

  method CheckRuns(
    nodes: map<Id, Node>, edges: seq<ExportEdge>, stage: Stage, resolved: Resolved
  ) returns (fault: Option<Refusal>)
    requires forall n :: 0 <= n < |edges| ==> Ends(edges[n], nodes.Keys)
    ensures fault.None? <==> forall n :: 0 <= n < |edges| ==> RunsOut(nodes, stage, resolved, edges[n])
    ensures fault.Some? ==> BreaksRun(edges, nodes, stage, resolved, fault.value)
  {
    for n := 0 to |edges|
      invariant forall m :: 0 <= m < n ==> RunsOut(nodes, stage, resolved, edges[m])
    {
      fault := RunOf(nodes, edges, n, stage, resolved);
      if fault.Some? {
        return;
      }
    }
    fault := None;
  }

  /** Whether public work would land from a task that depends on private work over no export edge. */
  method LeaksAny(plan: Plan, resolved: Resolved, node: Node) returns (leaks: bool)
    ensures leaks <==> !TaskHolds(plan, resolved, node)
  {
    if node.id !in resolved.destinations {
      return false;
    }
    for j := 0 to |node.deps|
      invariant forall k :: 0 <= k < j ==> !Leaks(plan, resolved, node, node.deps[k])
    {
      if Leaks(plan, resolved, node, node.deps[j]) {
        return true;
      }
    }
    return false;
  }

  method FirstLeak(plan: Plan, resolved: Resolved) returns (leak: Option<nat>)
    ensures leak.None? <==> TasksHold(plan, resolved)
    ensures leak.Some? ==> FirstToLeak(plan, resolved, leak.value)
  {
    for i := 0 to |plan.tasks|
      invariant forall k :: 0 <= k < i ==> TaskHolds(plan, resolved, plan.tasks[k])
    {
      var leaks := LeaksAny(plan, resolved, plan.tasks[i]);
      if leaks {
        return Some(i);
      }
    }
    return None;
  }

  method CheckTasks(plan: Plan, resolved: Resolved) returns (fault: Option<Refusal>)
    ensures fault.None? <==> TasksHold(plan, resolved)
    ensures fault.Some? ==> BreaksTask(plan, resolved, fault.value)
  {
    var leak := FirstLeak(plan, resolved);
    if leak.None? {
      return None;
    }
    var id := plan.tasks[leak.value].id;
    var task := Position(plan.tasks, id);
    fault := Some(PrivateDependency(task, ConsumesOne(plan.exportEdges, id)));
  }

  method CheckTerms(
    nodes: map<Id, Node>, edges: seq<ExportEdge>, terms: TermCheck, resolved: Resolved
  ) returns (fault: Option<Refusal>)
    requires forall n :: 0 <= n < |edges| ==> Ends(edges[n], nodes.Keys)
    ensures fault.None? <==> forall n :: 0 <= n < |edges| ==> Neutral(nodes, terms, resolved, edges[n])
    ensures fault.Some? ==> BreaksTerm(edges, nodes, terms, resolved, fault.value)
  {
    for n := 0 to |edges|
      invariant forall m :: 0 <= m < n ==> Neutral(nodes, terms, resolved, edges[m])
    {
      var edge := edges[n];
      assert Ends(edge, nodes.Keys);
      if !terms(nodes[edge.to], edge, resolved.scope) {
        return Some(NotNeutral(n + 1));
      }
    }
    return None;
  }

  lemma EndsAreNodes(plan: Plan, opaqueRule: OpaqueRule)
    requires EdgesHold(plan, opaqueRule)
    ensures forall n :: 0 <= n < |plan.exportEdges| ==> Ends(plan.exportEdges[n], NodesIn(plan.tasks).Keys)
  {
    forall n | 0 <= n < |plan.exportEdges| ensures Ends(plan.exportEdges[n], NodesIn(plan.tasks).Keys) {
      assert WellShaped(plan.exportEdges, Ids(plan.tasks), opaqueRule, n);
    }
  }

  /** Judge a plan against every rule of the boundary. */
  method Check(plan: Plan, stage: Stage, oracle: Oracle, opaqueRule: OpaqueRule, terms: TermCheck)
    returns (answer: Result<Resolved, Refusal>, resolved: Resolved)
    ensures IsResolved(plan, oracle, resolved)
    ensures answer.Ok? <==> Accepted(plan, stage, opaqueRule, terms, resolved)
    ensures answer.Ok? ==> answer.value == resolved
    ensures answer.Err? ==> Breaks(plan, stage, opaqueRule, terms, resolved, answer.error)
  {
    resolved := Resolve(plan, oracle);
    var fault := FirstFault(plan, stage, opaqueRule, terms, resolved);
    answer := if fault.Some? then Err(fault.value) else Ok(resolved);
  }

  /** The first rule a plan breaks: of its edges alone, of what they run between, of its tasks, of its words. */
  method FirstFault(plan: Plan, stage: Stage, opaqueRule: OpaqueRule, terms: TermCheck, resolved: Resolved)
    returns (fault: Option<Refusal>)
    ensures fault.None? <==> Accepted(plan, stage, opaqueRule, terms, resolved)
    ensures fault.Some? ==> Breaks(plan, stage, opaqueRule, terms, resolved, fault.value)
  {
    fault := CheckEdges(plan, opaqueRule);
    if fault.Some? {
      return;
    }
    EndsAreNodes(plan, opaqueRule);
    fault := CheckRuns(NodesIn(plan.tasks), plan.exportEdges, stage, resolved);
    if fault.Some? {
      return;
    }
    assert AllRunOut(plan, stage, resolved);
    fault := CheckTasks(plan, resolved);
    if fault.Some? {
      return;
    }
    assert TasksHold(plan, resolved);
    fault := CheckTerms(NodesIn(plan.tasks), plan.exportEdges, terms, resolved);
  }
}
