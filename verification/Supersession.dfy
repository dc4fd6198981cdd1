/**
 What a `retry` leaves behind: a map from each node it replaced to its replacement,
 and the walks over it that end whatever a person edited into it.

 `LatestOf` is how an export edge follows its ends (src/boundary.rs, `edges_now`),
 `LineageRoot` how a consumer is named by the id it was launched under, and
 `Lineages` how a run's nodes are gathered into changes (src/changes.rs).
 */
module Supersession {

  type Id = string
  type Superseded = map<Id, Id>

  ghost predicate Injective(superseded: Superseded) {
    forall a, b :: a in superseded && b in superseded && superseded[a] == superseded[b] ==> a == b
  }

  /** Whether each of `chain` but the last was replaced by the next. */
  ghost predicate Steps(superseded: Superseded, chain: seq<Id>) {
    && chain != []
    && forall i :: 0 <= i < |chain| - 1 ==> chain[i] in superseded && superseded[chain[i]] == chain[i + 1]
  }

  ghost predicate Links(superseded: Superseded, chain: seq<Id>, from: Id, last: Id) {
    Steps(superseded, chain) && chain[0] == from && chain[|chain| - 1] == last
  }

  ghost predicate Leads(superseded: Superseded, from: Id, last: Id) {
    exists chain :: Links(superseded, chain, from, last)
  }

  ghost predicate OnCycle(superseded: Superseded, id: Id) {
    exists chain :: Links(superseded, chain, id, id) && |chain| > 1
  }

  ghost predicate Distinct(chain: seq<Id>) {
    forall i, j :: 0 <= i < j < |chain| ==> chain[i] != chain[j]
  }

  ghost predicate Launched(superseded: Superseded, id: Id) {
    id !in superseded.Values
  }

  lemma Joined(superseded: Superseded, a: seq<Id>, b: seq<Id>, from: Id, mid: Id, last: Id)
    requires Links(superseded, a, from, mid) && Links(superseded, b, mid, last)
    ensures Links(superseded, a + b[1..], from, last)
  {
    var chain := a + b[1..];
    forall i | 0 <= i < |chain| - 1 ensures chain[i] in superseded && superseded[chain[i]] == chain[i + 1] {
      if i >= |a| - 1 {
        assert chain[i] == b[i - (|a| - 1)] && chain[i + 1] == b[i - (|a| - 1) + 1];
      }
    }
    assert chain[|chain| - 1] == if |b| > 1 then b[|b| - 1] else a[|a| - 1];
  }

  lemma InValues(superseded: Superseded, chain: seq<Id>, i: nat)
    requires Steps(superseded, chain) && 0 < i < |chain|
    ensures chain[i] in superseded.Values
  {
    assert chain[i - 1] in superseded && superseded[chain[i - 1]] == chain[i];
  }

  // ---- injective maps: one way back --------------------------------------

  /** Two chains that end together agree from the end as far back as both go. */
  lemma {:induction false} AgreeFromTheEnd(superseded: Superseded, a: seq<Id>, b: seq<Id>, k: nat)
    requires Injective(superseded) && Steps(superseded, a) && Steps(superseded, b)
    requires a[|a| - 1] == b[|b| - 1] && k < |a| && k < |b|
    ensures a[|a| - 1 - k] == b[|b| - 1 - k]
  {
    if k > 0 {
      AgreeFromTheEnd(superseded, a, b, k - 1);
      var i, j := |a| - 1 - k, |b| - 1 - k;
      assert superseded[a[i]] == a[i + 1] && superseded[b[j]] == b[j + 1];
    }
  }

  /** A cycle can be gone round until the way back is as long as any. */
  lemma {:induction false} LongerWayBack(
    superseded: Superseded, root: Id, id: Id, cycle: seq<Id>, chain: seq<Id>, n: nat
  ) returns (longer: seq<Id>)
    requires Links(superseded, cycle, root, root) && |cycle| > 1 && Links(superseded, chain, root, id)
    ensures Links(superseded, longer, root, id) && |longer| >= n
    decreases n - |chain|
  {
    longer := chain;
    if |chain| < n {
      Joined(superseded, cycle, chain, root, root, id);
      longer := LongerWayBack(superseded, root, id, cycle, cycle + chain[1..], n);
    }
  }

  /** In an injective map, the only way back from `id` that ends at all ends where its lineage was launched. */
  lemma RootIsLaunched(superseded: Superseded, launched: Id, root: Id, id: Id)
    requires Injective(superseded) && Launched(superseded, launched) && Leads(superseded, launched, id)
    requires Leads(superseded, root, id)
    requires Launched(superseded, root) || OnCycle(superseded, root)
    ensures root == launched
  {
    var a :| Links(superseded, a, launched, id);
    var b :| Links(superseded, b, root, id);
    if !Launched(superseded, root) {
      var cycle :| Links(superseded, cycle, root, root) && |cycle| > 1;
      b := LongerWayBack(superseded, root, id, cycle, b, |a|);
    }
    if |a| <= |b| {
      AgreeFromTheEnd(superseded, a, b, |a| - 1);
      if |a| < |b| {
        InValues(superseded, b, |b| - |a|);
      }
    } else {
      AgreeFromTheEnd(superseded, a, b, |b| - 1);
      InValues(superseded, a, |a| - |b|);
    }
  }

  /** A launched id is on no cycle, and in an injective map neither is anything it leads to. */
  lemma LaunchedLeadsToNoCycle(superseded: Superseded, launched: Id, id: Id)
    requires Injective(superseded) && Launched(superseded, launched) && Leads(superseded, launched, id)
    ensures !OnCycle(superseded, id)
  {
    if OnCycle(superseded, id) {
      assert Links(superseded, [id], id, id);
      RootIsLaunched(superseded, launched, id, id);
      var cycle :| Links(superseded, cycle, id, id) && |cycle| > 1;
      InValues(superseded, cycle, |cycle| - 1);
    }
  }

  // ---- the latest replacement --------------------------------------------

  /** The walk forward from `id`, stopped where it comes back on itself. */
  function LatestFrom(superseded: Superseded, id: Id, seen: set<Id>): Id
    decreases superseded.Keys - seen
  {
    if id in superseded && id !in seen then LatestFrom(superseded, superseded[id], seen + {id}) else id
  }

  function Latest(superseded: Superseded, id: Id): Id {
    LatestFrom(superseded, id, {})
  }

  method LatestOf(id: Id, superseded: Superseded) returns (latest: Id)
    ensures latest == Latest(superseded, id)
  {
    latest := id;
    var seen: set<Id> := {};
    while latest in superseded && latest !in seen
      invariant LatestFrom(superseded, latest, seen) == Latest(superseded, id)
      decreases superseded.Keys - seen
    {
      seen := seen + {latest};
      latest := superseded[latest];
    }
  }

  ghost function ElementsOf(chain: seq<Id>): set<Id> {
    set id | id in chain
  }

  /** Where the walk ends: at a node nothing replaced, or back at one it came by. */
  lemma {:induction false} LatestEnds(superseded: Superseded, chain: seq<Id>, seen: set<Id>) returns (end: seq<Id>)
    requires Steps(superseded, chain) && seen == ElementsOf(chain[..|chain| - 1])
    ensures chain <= end && Links(superseded, end, chain[0], LatestFrom(superseded, chain[|chain| - 1], seen))
    ensures var latest := end[|end| - 1]; latest !in superseded || latest in end[..|end| - 1]
    decreases superseded.Keys - seen
  {
    var id := chain[|chain| - 1];
    end := chain;
    if id in superseded && id !in seen {
      var longer := chain + [superseded[id]];
      assert longer[..|longer| - 1] == chain;
      assert chain == chain[..|chain| - 1] + [id];
      assert ElementsOf(chain) == seen + {id};
      end := LatestEnds(superseded, longer, seen + {id});
    } else if id in superseded {
      assert id in chain[..|chain| - 1];
    }
  }

  lemma LatestIs(superseded: Superseded, id: Id)
    ensures Leads(superseded, id, Latest(superseded, id))
    ensures Latest(superseded, id) !in superseded || OnCycle(superseded, Latest(superseded, id))
  {
    assert ElementsOf([id][..0]) == {};
    var end := LatestEnds(superseded, [id], {});
    var latest := end[|end| - 1];
    assert latest == Latest(superseded, id);
    if latest in superseded {
      var i :| 0 <= i < |end| - 1 && end[i] == latest;
      assert Links(superseded, end[i..], latest, latest);
    }
  }

  /** Going round a cycle from one of its nodes ends at that node. */
  lemma {:induction false} RoundTheCycle(superseded: Superseded, open: seq<Id>, i: nat)
    requires open != [] && Links(superseded, open + [open[0]], open[0], open[0]) && Distinct(open)
    requires 0 < i <= |open|
    ensures LatestFrom(superseded, (open + [open[0]])[i], ElementsOf(open[..i])) == open[0]
    decreases |open| - i
  {
    var cycle := open + [open[0]];
    if i == |open| {
      assert open[..i] == open;
    } else {
      assert cycle[i] !in open[..i];
      assert open[..i + 1] == open[..i] + [open[i]];
      assert ElementsOf(open[..i + 1]) == ElementsOf(open[..i]) + {open[i]};
      assert superseded[cycle[i]] == cycle[i + 1];
      RoundTheCycle(superseded, open, i + 1);
    }
  }

  /** A cycle can be cut to one that passes each node once. */
  lemma {:induction false} SimpleCycle(superseded: Superseded, start: Id, cycle: seq<Id>) returns (simple: seq<Id>)
    requires Links(superseded, cycle, start, start) && |cycle| > 1
    ensures Links(superseded, simple, start, start) && |simple| > 1 && Distinct(simple[..|simple| - 1])
    decreases |cycle|
  {
    simple := cycle;
    var open := cycle[..|cycle| - 1];
    if i, j :| 0 <= i < j < |open| && open[i] == open[j] {
      assert cycle[i] == cycle[j];
      assert Links(superseded, cycle[..i + 1], start, cycle[i]);
      assert Links(superseded, cycle[j..], cycle[j], start);
      Joined(superseded, cycle[..i + 1], cycle[j..], start, cycle[i], start);
      simple := SimpleCycle(superseded, start, cycle[..i + 1] + cycle[j..][1..]);
    }
  }

  /** Following an edge to its latest ends twice is following it once, on any map, cycles included. */
  lemma LatestIsIdempotent(superseded: Superseded, id: Id)
    ensures Latest(superseded, Latest(superseded, id)) == Latest(superseded, id)
  {
    LatestIs(superseded, id);
    var latest := Latest(superseded, id);
    if latest in superseded {
      var cycle :| Links(superseded, cycle, latest, latest) && |cycle| > 1;
      var simple := SimpleCycle(superseded, latest, cycle);
      var open := simple[..|simple| - 1];
      assert simple == open + [latest] && open[0] == latest;
      RoundTheCycle(superseded, open, 1);
      assert superseded[simple[0]] == simple[1];
      assert ElementsOf(open[..1]) == {} + {latest};
    }
  }

  // ---- the id a lineage was launched under -------------------------------

  lemma OneBack(superseded: Superseded, chain: seq<Id>, replaced: Id, root: Id, id: Id)
    requires Links(superseded, chain, root, id) && replaced in superseded && superseded[replaced] == root
    ensures Links(superseded, [replaced] + chain, replaced, id)
    ensures ElementsOf(([replaced] + chain)[1..]) == ElementsOf(chain[1..]) + {root}
  {
    assert ([replaced] + chain)[1..] == chain && chain == [root] + chain[1..];
  }

  lemma BackOnItself(superseded: Superseded, chain: seq<Id>, root: Id, id: Id)
    requires Links(superseded, chain, root, id) && root in chain[1..]
    ensures OnCycle(superseded, root)
  {
    var i :| 1 <= i < |chain| && chain[i] == root;
    assert Links(superseded, chain[..i + 1], root, root);
  }

  /** The walk back from `id`: one node it was replaced from at a time, stopped where it comes back on itself. */
  method LineageRoot(id: Id, superseded: Superseded) returns (root: Id)
    ensures Leads(superseded, root, id)
    ensures Launched(superseded, root) || OnCycle(superseded, root)
  {
    root := id;
    var seen: set<Id> := {};
    ghost var chain := [id];
    while root in superseded.Values
      invariant Links(superseded, chain, root, id)
      invariant seen == ElementsOf(chain[1..])
      invariant seen <= superseded.Values + {id}
      decreases superseded.Values + {id} - seen
    {
      var replaced :| replaced in superseded && superseded[replaced] == root;
      if root in seen {
        BackOnItself(superseded, chain, root, id);
        break;
      }
      OneBack(superseded, chain, replaced, root, id);
      seen := seen + {root};
      chain := [replaced] + chain;
      root := replaced;
    }
  }

  /** An export consumer's identity survives any retries: the latest of a launched node is traced back to it. */
  lemma LineageRootIsLaunched(superseded: Superseded, launched: Id, root: Id)
    requires Injective(superseded) && Launched(superseded, launched)
    requires Leads(superseded, root, Latest(superseded, launched))
    requires Launched(superseded, root) || OnCycle(superseded, root)
    ensures root == launched
    ensures Latest(superseded, launched) !in superseded
  {
    LatestIs(superseded, launched);
    RootIsLaunched(superseded, launched, root, Latest(superseded, launched));
    LaunchedLeadsToNoCycle(superseded, launched, Latest(superseded, launched));
  }
}
