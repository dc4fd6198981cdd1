/**
 What is reported of a registry, from the results of its jobs (release/release.py,
 `registry_outcome`).
 */
module ReleaseOutcome {

  datatype Outcome = Success | Failure | Cancelled | Skipped

  function Worst(results: seq<Outcome>): Outcome {
    if Failure in results then Failure
    else if Cancelled in results then Cancelled
    else if Skipped in results then Skipped
    else Success
  }

  predicate All(results: seq<Outcome>, outcome: Outcome) {
    forall i :: 0 <= i < |results| ==> results[i] == outcome
  }

  /** What was published into the registry, and what of it was verified. */
  function RegistryOutcome(published: seq<Outcome>, verified: seq<Outcome>): (Outcome, Outcome) {
    if All(published, Success) then (Success, Worst(verified))
    else if Success in published then (Success, Failure)
    else (Worst(published), Skipped)
  }

  lemma WorstIsSuccessOnlyOfSuccesses(results: seq<Outcome>)
    ensures Worst(results) == Success <==> All(results, Success)
  {
    forall i | Worst(results) == Success && 0 <= i < |results| ensures results[i] == Success {
      assert results[i] in results;
    }
  }

  /** How bad an outcome is, in the order `worst` looks for them. */
  function Badness(outcome: Outcome): nat {
    match outcome
    case Success => 0
    case Skipped => 1
    case Cancelled => 2
    case Failure => 3
  }

  lemma NoTwoAreAsBad(a: Outcome, b: Outcome)
    ensures Badness(a) == Badness(b) <==> a == b
    ensures Badness(Success) < Badness(Skipped) < Badness(Cancelled) < Badness(Failure)
  {
  }

  /** `Worst` is the worst of what it is given, and success where it is given nothing. */
  lemma WorstIsWorst(results: seq<Outcome>)
    ensures forall i :: 0 <= i < |results| ==> Badness(results[i]) <= Badness(Worst(results))
    ensures if results == [] then Worst(results) == Success else Worst(results) in results
  {
    if results != [] {
      assert results[0] in results;
    }
  }

  ghost predicate IsWorst(results: seq<Outcome>, outcome: Outcome) {
    && (forall i :: 0 <= i < |results| ==> Badness(results[i]) <= Badness(outcome))
    && if results == [] then outcome == Success else outcome in results
  }

  /**
   A registry is reported shipped where any job shipped it or all did, and then verified as badly as its
   worst job where all of them shipped it, and not at all where only some did; where none shipped, it is
   reported as its worst job and its verification as skipped.
   */
  lemma OutcomeIsTheWorst(published: seq<Outcome>, verified: seq<Outcome>)
    ensures var (shipped, checked) := RegistryOutcome(published, verified);
      && (All(published, Success) ==> shipped == Success && IsWorst(verified, checked))
      && (!All(published, Success) && Success in published ==> shipped == Success && checked == Failure)
      && (!All(published, Success) && Success !in published ==> IsWorst(published, shipped) && checked == Skipped)
    ensures RegistryOutcome(published, verified).1 == Success <==> All(published, Success) && All(verified, Success)
  {
    WorstIsWorst(published);
    WorstIsWorst(verified);
    WorstIsSuccessOnlyOfSuccesses(verified);
  }

  /** One more job never makes a registry's verification look better, nor takes back that it shipped. */
  lemma AnotherJobMakesItNoBetter(published: seq<Outcome>, verified: seq<Outcome>, publish: Outcome, verify: Outcome)
    requires |published| == |verified|
    ensures
      var was := RegistryOutcome(published, verified);
      var now := RegistryOutcome(published + [publish], verified + [verify]);
      && Badness(was.1) <= Badness(now.1)
      && (published != [] && was.0 == Success ==> now.0 == Success)
      && (now == (Success, Success) <==> was == (Success, Success) && publish == Success && verify == Success)
  {
    WorstIsWorst(verified);
    WorstIsWorst(verified + [verify]);
    OutcomeIsTheWorst(published, verified);
    OutcomeIsTheWorst(published + [publish], verified + [verify]);
    assert (verified + [verify])[..|verified|] == verified;
    assert (published + [publish])[..|published|] == published && (published + [publish])[|published|] == publish;
    assert (verified + [verify])[|verified|] == verify;
    if published != [] {
      assert published[0] in published;
    }
  }
}
