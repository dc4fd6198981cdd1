/**
 A run's nodes gathered into changes (src/changes.rs, `lineages`): one lineage
 from each launched node, walked along its replacements.
 */
module Lineages {
  import opened Supersession

  /** Whether a walk has gone as far as it goes without coming back on itself. */
  ghost predicate Ends(superseded: Superseded, chain: seq<Id>)
    requires chain != []
  {
    var last := chain[|chain| - 1];
    last !in superseded || superseded[last] in chain
  }

  ghost predicate IsLineage(superseded: Superseded, chain: seq<Id>) {
    && Steps(superseded, chain)
    && Distinct(chain)
    && Launched(superseded, chain[0])
    && Ends(superseded, chain)
  }

  /** The nodes nothing was replaced with, in the order they stand. */
  function Roots(superseded: Superseded, nodes: seq<Id>): seq<Id> {
    if nodes == [] then []
    else Roots(superseded, nodes[..|nodes| - 1]) +
         (if nodes[|nodes| - 1] in superseded.Values then [] else [nodes[|nodes| - 1]])
  }

  ghost predicate GatheredFrom(superseded: Superseded, roots: seq<Id>, lineages: seq<seq<Id>>) {
    && |lineages| == |roots|
    && forall i :: 0 <= i < |lineages| ==> IsLineage(superseded, lineages[i]) && lineages[i][0] == roots[i]
  }

  method Walk(superseded: Superseded, root: Id) returns (chain: seq<Id>)
    requires Launched(superseded, root)
    ensures IsLineage(superseded, chain) && chain[0] == root
  {
    chain := [root];
    var at := root;
    while at in superseded && superseded[at] !in chain
      invariant Steps(superseded, chain) && Distinct(chain) && chain[0] == root && at == chain[|chain| - 1]
      invariant ElementsOf(chain[1..]) <= superseded.Values
      decreases superseded.Values - ElementsOf(chain[1..])
    {
      var next := superseded[at];
      var before := chain;
      chain := chain + [next];
      assert chain[1..] == before[1..] + [next];
      assert next in ElementsOf(chain[1..]) && next !in ElementsOf(before[1..]);
      at := next;
    }
  }

  /** One walk from each node that replaces none, in the order the nodes are given. */
  method LineagesOf(superseded: Superseded, nodes: seq<Id>) returns (lineages: seq<seq<Id>>)
    ensures GatheredFrom(superseded, Roots(superseded, nodes), lineages)
  {
    lineages := [];
    for i := 0 to |nodes|
      invariant GatheredFrom(superseded, Roots(superseded, nodes[..i]), lineages)
    {
      assert nodes[..i + 1][..i] == nodes[..i];
      if nodes[i] !in superseded.Values {
        var chain := Walk(superseded, nodes[i]);
        lineages := lineages + [chain];
      }
    }
    assert nodes[..|nodes|] == nodes;
  }

  // ---- every node is in one lineage --------------------------------------

  lemma {:induction false} RootsAre(superseded: Superseded, nodes: seq<Id>)
    ensures forall id :: id in Roots(superseded, nodes) <==> id in nodes && Launched(superseded, id)
    ensures Distinct(nodes) ==> Distinct(Roots(superseded, nodes))
  {
    if nodes != [] {
      var front, last := nodes[..|nodes| - 1], nodes[|nodes| - 1];
      RootsAre(superseded, front);
      assert nodes == front + [last];
      var before := Roots(superseded, front);
      assert forall i :: 0 <= i < |before| ==> before[i] in front;
      assert Distinct(nodes) ==> last !in front;
    }
  }

  lemma MembersAreLed(superseded: Superseded, chain: seq<Id>, id: Id)
    requires Steps(superseded, chain) && id in chain
    ensures Leads(superseded, chain[0], id)
  {
    var i :| 0 <= i < |chain| && chain[i] == id;
    assert Links(superseded, chain[..i + 1], chain[0], id);
  }

  lemma {:induction false} LedAreMembers(superseded: Superseded, chain: seq<Id>, led: seq<Id>, k: nat)
    requires Injective(superseded) && IsLineage(superseded, chain)
    requires Steps(superseded, led) && led[0] == chain[0] && k < |led|
    ensures k < |chain| && led[k] == chain[k]
  {
    if k > 0 {
      LedAreMembers(superseded, chain, led, k - 1);
      var last := chain[|chain| - 1];
      if k == |chain| {
        var i :| 0 <= i < |chain| && chain[i] == superseded[last];
        assert Links(superseded, chain[i..] + [superseded[last]], chain[i], chain[i]);
        MembersAreLed(superseded, chain, chain[i]);
        LaunchedLeadsToNoCycle(superseded, chain[0], chain[i]);
      }
    }
  }

  lemma {:induction false} CyclesAreKept(superseded: Superseded, chain: seq<Id>)
    requires Steps(superseded, chain) && OnCycle(superseded, chain[0])
    ensures OnCycle(superseded, chain[|chain| - 1])
    decreases |chain|
  {
    if |chain| > 1 {
      var cycle :| Links(superseded, cycle, chain[0], chain[0]) && |cycle| > 1;
      var next := superseded[chain[0]];
      assert cycle[1] == next;
      assert Links(superseded, cycle[1..] + [next], next, next);
      CyclesAreKept(superseded, chain[1..]);
    }
  }

  /** Every node is led to from one launched, or from one on a cycle. */
  lemma {:induction false} WayBack(superseded: Superseded, chain: seq<Id>) returns (back: seq<Id>)
    requires Steps(superseded, chain)
    ensures Steps(superseded, back) && back[|back| - 1] == chain[|chain| - 1]
    ensures Launched(superseded, back[0]) || OnCycle(superseded, back[0])
    decreases superseded.Values - ElementsOf(chain)
  {
    back := chain;
    if !Launched(superseded, chain[0]) {
      var replaced :| replaced in superseded && superseded[replaced] == chain[0];
      var longer := [replaced] + chain;
      if replaced in chain {
        var i :| 0 <= i < |chain| && chain[i] == replaced;
        assert Links(superseded, [replaced] + chain[..i + 1], replaced, replaced);
        back := longer;
      } else if Launched(superseded, replaced) {
        back := longer;
      } else {
        assert replaced in ElementsOf(longer) && replaced !in ElementsOf(chain);
        assert forall id :: id in chain ==> id in ElementsOf(longer);
        back := WayBack(superseded, longer);
      }
    }
  }

  /**
   Whatever a person edited into the map, members are distinct and linked. Where no
   two nodes share a replacement, no node is in two lineages, and a node is in one
   exactly where it is on no cycle.
   */
  lemma EveryNodeIsInOneLineage(superseded: Superseded, nodes: seq<Id>, lineages: seq<seq<Id>>, node: Id)
    requires Injective(superseded) && Distinct(nodes)
    requires forall id :: id in superseded ==> id in nodes
    requires GatheredFrom(superseded, Roots(superseded, nodes), lineages)
    requires node in nodes || node in superseded.Values
    ensures !OnCycle(superseded, node) <==> exists i :: 0 <= i < |lineages| && node in lineages[i]
    ensures forall i, j :: 0 <= i < |lineages| && 0 <= j < |lineages| && node in lineages[i] && node in lineages[j] ==>
      i == j
  {
    RootsAre(superseded, nodes);
    forall i | 0 <= i < |lineages| && node in lineages[i] ensures !OnCycle(superseded, node) {
      MembersAreLed(superseded, lineages[i], node);
      LaunchedLeadsToNoCycle(superseded, lineages[i][0], node);
    }
    forall i, j | 0 <= i < |lineages| && 0 <= j < |lineages| && node in lineages[i] && node in lineages[j]
      ensures i == j
    {
      MembersAreLed(superseded, lineages[i], node);
      MembersAreLed(superseded, lineages[j], node);
      RootIsLaunched(superseded, lineages[i][0], lineages[j][0], node);
    }
    if !OnCycle(superseded, node) {
      var i := LineageOf(superseded, nodes, lineages, node);
    }
  }

  lemma LineageOf(superseded: Superseded, nodes: seq<Id>, lineages: seq<seq<Id>>, node: Id) returns (i: nat)
    requires Injective(superseded) && !OnCycle(superseded, node)
    requires forall id :: id in superseded ==> id in nodes
    requires GatheredFrom(superseded, Roots(superseded, nodes), lineages)
    requires node in nodes || node in superseded.Values
    ensures i < |lineages| && node in lineages[i]
  {
    RootsAre(superseded, nodes);
    var back := WayBack(superseded, [node]);
    if OnCycle(superseded, back[0]) {
      CyclesAreKept(superseded, back);
    }
    var root := back[0];
    assert root in nodes;
    assert root in Roots(superseded, nodes);
    i :| 0 <= i < |lineages| && lineages[i][0] == root;
    LedAreMembers(superseded, lineages[i], back, |back| - 1);
  }
}
