/**
 The publication boundary: which nodes of a plan are public and which private
 (src/boundary.rs, `resolve`).

 `Resolver.Inherit` is the memoised walk the source takes. What it computes, of a
 plan with no dependency cycle, is `IsPrivate`, which names no walk and no memo.
 */
module Boundary {
  import opened Wrappers

  type Id = string

  datatype Clearance = Public | Private

  /** A repository as the host resolves it: its side of the boundary, and its identity in a term scope. */
  datatype Repository = Repository(clearance: Clearance, identity: string)

  datatype Publish = Preserve | Land

  datatype Node = Node(
    id: Id,
    classified: Clearance,
    repo: Option<string>,
    repositories: seq<string>,
    deps: seq<Id>,
    publish: Publish,
    branch: Option<string>,
    resume: Option<string>,
    baseBranch: Option<string>,
    text: seq<string>
  )

  datatype ExportEdge = ExportEdge(
    from: Id, to: Id, sourceDirectory: string, targetDirectory: string, acceptedOpaque: seq<string>
  )

  datatype Plan = Plan(tasks: seq<Node>, exportEdges: seq<ExportEdge>)

  /** What the host answers of a repository: the same all through one resolution. */
  type Oracle = string -> Repository

  ghost predicate EachOnce(named: seq<string>) {
    forall i, j :: 0 <= i < j < |named| ==> named[i] != named[j]
  }

  function Named(named: seq<string>, more: seq<string>): (all: seq<string>)
    ensures forall repo :: repo in all <==> repo in named || repo in more
    ensures named <= all && (EachOnce(named) ==> EachOnce(all))
    decreases |more|
  {
    if more == [] then named
    else
      assert more == [more[0]] + more[1..];
      Named(if more[0] in named then named else named + [more[0]], more[1..])
  }

  /** The repositories of a node, each once: `repo` first, then those of `repositories` in order. */
  function RepositoriesOf(node: Node): seq<string> {
    Named(if node.repo.Some? then [node.repo.value] else [], node.repositories)
  }

  function AnyPrivate(named: seq<string>, oracle: Oracle): (any: bool)
    ensures any <==> exists i :: 0 <= i < |named| && oracle(named[i]).clearance == Private
  {
    if named == [] then false
    else
      assert named == named[..|named| - 1] + [named[|named| - 1]];
      AnyPrivate(named[..|named| - 1], oracle) || oracle(named[|named| - 1]).clearance == Private
  }

  /** What a node's own task and repositories say: nothing, where it names no repository and is not private. */
  function OwnOf(node: Node, oracle: Oracle): Option<Clearance> {
    if node.classified == Private || AnyPrivate(RepositoriesOf(node), oracle) then Some(Private)
    else if RepositoriesOf(node) != [] then Some(Public)
    else None
  }

  type Own = map<Id, Option<Clearance>>
  type Deps = map<Id, seq<Id>>

  function OwnIn(tasks: seq<Node>, oracle: Oracle): Own {
    if tasks == [] then map[]
    else OwnIn(tasks[..|tasks| - 1], oracle)[tasks[|tasks| - 1].id := OwnOf(tasks[|tasks| - 1], oracle)]
  }

  predicate IsExport(edges: seq<ExportEdge>, dep: Id, node: Id) {
    exists i :: 0 <= i < |edges| && edges[i].from == dep && edges[i].to == node
  }

  /** A node's dependencies but the ones an export edge carries. */
  function Ordinary(deps: seq<Id>, node: Id, edges: seq<ExportEdge>): (kept: seq<Id>)
    ensures forall dep :: dep in kept <==> dep in deps && !IsExport(edges, dep, node)
  {
    if deps == [] then []
    else
      assert deps == deps[..|deps| - 1] + [deps[|deps| - 1]];
      Ordinary(deps[..|deps| - 1], node, edges) +
      (if IsExport(edges, deps[|deps| - 1], node) then [] else [deps[|deps| - 1]])
  }

  function DepsIn(tasks: seq<Node>, edges: seq<ExportEdge>): Deps {
    if tasks == [] then map[]
    else
      var last := tasks[|tasks| - 1];
      DepsIn(tasks[..|tasks| - 1], edges)[last.id := Ordinary(last.deps, last.id, edges)]
  }

  // ---- what a clearance is -----------------------------------------------

  /** Whether `dep` is a dependency clearance is inherited over. */
  ghost predicate Inherits(own: Own, deps: Deps, node: Id, dep: Id) {
    node in deps && dep in deps[node] && dep in own
  }

  ghost predicate Down(own: Own, deps: Deps, path: seq<Id>) {
    && path != []
    && forall i :: 0 <= i < |path| - 1 ==> Inherits(own, deps, path[i], path[i + 1])
  }

  ghost predicate Unnamed(own: Own, id: Id) {
    id in own && own[id].None?
  }

  /** Whether `path` goes down from `id`, through nodes that say nothing themselves, to one that is private. */
  ghost predicate ReachesPrivate(own: Own, deps: Deps, path: seq<Id>, id: Id) {
    && Down(own, deps, path)
    && path[0] == id
    && (forall i :: 0 <= i < |path| - 1 ==> Unnamed(own, path[i]))
    && path[|path| - 1] in own && own[path[|path| - 1]] == Some(Private)
  }

  ghost predicate IsPrivate(own: Own, deps: Deps, id: Id) {
    exists path :: ReachesPrivate(own, deps, path, id)
  }

  ghost predicate Acyclic(own: Own, deps: Deps) {
    !exists path :: Down(own, deps, path) && |path| > 1 && path[0] == path[|path| - 1]
  }

  ghost function ClearanceOf(own: Own, deps: Deps, id: Id): Clearance {
    if IsPrivate(own, deps, id) then Private else Public
  }

  ghost predicate InheritsPrivate(own: Own, deps: Deps, id: Id) {
    exists dep :: Inherits(own, deps, id, dep) && IsPrivate(own, deps, dep)
  }

  ghost predicate NonePrivate(own: Own, deps: Deps, ids: seq<Id>) {
    forall dep :: dep in ids && dep in own ==> !IsPrivate(own, deps, dep)
  }

  /** A node that says what it is, is that; one that does not is private where any dependency is. */
  lemma PrivateUnfolds(own: Own, deps: Deps, id: Id)
    requires id in own
    ensures own[id].Some? ==> (IsPrivate(own, deps, id) <==> own[id] == Some(Private))
    ensures own[id].None? ==> (IsPrivate(own, deps, id) <==> InheritsPrivate(own, deps, id))
  {
    if own[id] == Some(Private) {
      assert ReachesPrivate(own, deps, [id], id);
    }
    if own[id].None? && IsPrivate(own, deps, id) {
      var path :| ReachesPrivate(own, deps, path, id);
      assert Inherits(own, deps, id, path[1]);
      assert ReachesPrivate(own, deps, path[1..], path[1]);
    }
    if dep :| own[id].None? && Inherits(own, deps, id, dep) && IsPrivate(own, deps, dep) {
      var path :| ReachesPrivate(own, deps, path, dep);
      var longer := [id] + path;
      forall i | 0 <= i < |longer| - 1
        ensures Inherits(own, deps, longer[i], longer[i + 1]) && Unnamed(own, longer[i])
      {
        assert i > 0 ==> Inherits(own, deps, path[i - 1], path[i]) && Unnamed(own, path[i - 1]);
      }
      assert ReachesPrivate(own, deps, longer, id);
    }
  }

  /** Marking a node private, or one of its repositories, makes nothing public. */
  lemma NothingIsDowngraded(own: Own, stricter: Own, deps: Deps, id: Id)
    requires own.Keys == stricter.Keys
    requires forall k :: k in own ==> stricter[k] == own[k] || stricter[k] == Some(Private)
    requires IsPrivate(own, deps, id)
    ensures IsPrivate(stricter, deps, id)
  {
    var path :| ReachesPrivate(own, deps, path, id);
    FirstStricter(own, stricter, deps, path, id, 0);
  }

  lemma {:induction false} FirstStricter(own: Own, stricter: Own, deps: Deps, path: seq<Id>, id: Id, n: nat)
    requires own.Keys == stricter.Keys
    requires forall k :: k in own ==> stricter[k] == own[k] || stricter[k] == Some(Private)
    requires ReachesPrivate(own, deps, path, id) && n < |path|
    requires forall i :: 0 <= i < n ==> Unnamed(stricter, path[i])
    ensures IsPrivate(stricter, deps, id)
    decreases |path| - n
  {
    var front := path[..n + 1];
    forall i | 0 <= i < |front| - 1 ensures Inherits(stricter, deps, front[i], front[i + 1]) {
      assert Inherits(own, deps, path[i], path[i + 1]);
    }
    assert path[n] in own by {
      if n < |path| - 1 { assert Unnamed(own, path[n]); }
    }
    if stricter[path[n]] == Some(Private) {
      assert ReachesPrivate(stricter, deps, front, id);
    } else {
      FirstStricter(own, stricter, deps, path, id, n + 1);
    }
  }

  // ---- the walk ----------------------------------------------------------

  /** What a memo may hold: nothing private that is not, and on an acyclic plan nothing public that is private. */
  ghost predicate Faithful(own: Own, deps: Deps, done: map<Id, Clearance>) {
    forall id :: id in done ==> id in own && Settled(own, deps, id, done[id])
  }

  ghost predicate Settled(own: Own, deps: Deps, id: Id, clearance: Clearance) {
    && (clearance == Private ==> IsPrivate(own, deps, id))
    && (Acyclic(own, deps) && clearance == Public ==> !IsPrivate(own, deps, id))
  }

  /** Whether every node being visited leads down to `id`, by more than itself. */
  ghost predicate Above(own: Own, deps: Deps, visiting: set<Id>, id: Id) {
    forall above :: above in visiting ==> LeadsDown(own, deps, above, id)
  }

  ghost predicate LeadsDown(own: Own, deps: Deps, above: Id, id: Id) {
    exists path :: Down(own, deps, path) && |path| > 1 && path[0] == above && path[|path| - 1] == id
  }

  lemma AboveNext(own: Own, deps: Deps, visiting: set<Id>, id: Id, dep: Id)
    requires Above(own, deps, visiting, id) && Inherits(own, deps, id, dep)
    ensures Above(own, deps, visiting + {id}, dep)
  {
    forall above | above in visiting + {id} ensures LeadsDown(own, deps, above, dep) {
      if above == id {
        assert Down(own, deps, [id, dep]);
      } else {
        var path :| Down(own, deps, path) && |path| > 1 && path[0] == above && path[|path| - 1] == id;
        var longer := path + [dep];
        forall i | 0 <= i < |longer| - 1 ensures Inherits(own, deps, longer[i], longer[i + 1]) {
          assert i < |path| - 1 ==> Inherits(own, deps, path[i], path[i + 1]);
        }
        assert Down(own, deps, longer);
      }
    }
  }

  class Resolver {
    const own: Own
    const deps: Deps
    var done: map<Id, Clearance>
    var visiting: set<Id>

    constructor (own: Own, deps: Deps)
      ensures this.own == own && this.deps == deps && done == map[] && visiting == {}
    {
      this.own, this.deps, this.done, this.visiting := own, deps, map[], {};
    }

    /** One node's clearance: the settled one, its own, or the strictest it inherits. */
    method Inherit(id: Id) returns (clearance: Clearance)
      requires id in own && visiting <= own.Keys
      requires Faithful(own, deps, done) && Above(own, deps, visiting, id)
      modifies this`done, this`visiting
      ensures visiting == old(visiting) && Faithful(own, deps, done)
      ensures Settled(own, deps, id, clearance)
      decreases own.Keys - visiting, 0
    {
      if id in done {
        return done[id];
      }
      PrivateUnfolds(own, deps, id);
      if own[id].Some? {
        clearance := own[id].value;
      } else if id in visiting {
        clearance := Public;
        assert LeadsDown(own, deps, id, id);
      } else {
        visiting := visiting + {id};
        clearance := Strictest(id, if id in deps then deps[id] else []);
        visiting := visiting - {id};
      }
      done := done[id := clearance];
    }

    /** The strictest of what `id` inherits: private where any dependency is. */
    method Strictest(id: Id, inherited: seq<Id>) returns (clearance: Clearance)
      requires id in visiting && visiting <= own.Keys
      requires inherited == if id in deps then deps[id] else []
      requires Faithful(own, deps, done) && Above(own, deps, visiting - {id}, id)
      modifies this`done, this`visiting
      ensures visiting == old(visiting) && Faithful(own, deps, done)
      ensures clearance == Private ==> InheritsPrivate(own, deps, id)
      ensures Acyclic(own, deps) && clearance == Public ==> !InheritsPrivate(own, deps, id)
      decreases own.Keys - visiting, 1
    {
      clearance := Public;
      for i := 0 to |inherited|
        invariant visiting == old(visiting) && Faithful(own, deps, done)
        invariant clearance == Private ==> InheritsPrivate(own, deps, id)
        invariant Acyclic(own, deps) && clearance == Public ==> NonePrivate(own, deps, inherited[..i])
      {
        assert inherited[..i + 1] == inherited[..i] + [inherited[i]];
        if inherited[i] in own {
          AboveNext(own, deps, visiting - {id}, id, inherited[i]);
          assert visiting - {id} + {id} == visiting;
          var below := Inherit(inherited[i]);
          if below == Private {
            clearance := Private;
          }
        }
      }
      assert inherited[..|inherited|] == inherited;
    }
  }
}
