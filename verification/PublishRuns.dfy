/**
 Any number of publish attempts (release/release.py, `publish`): what holds of the three
 registries after each, however many jobs run at once and wherever each stops.
 */
module PublishRuns {
  import opened Publishing
  import opened Wrappers

  /**
   One job's attempt: the targets it builds, the build it made of them, the registries it
   was let upload to, and how many of its writes went through.
   */
  datatype Job = Job(targets: seq<Target>, build: Build, channels: Channels, reached: nat)

  function Wanted(held: Registries, job: Job): seq<Write> {
    Attempt(job.targets, held, job.build, job.channels)
  }

  ghost predicate Stops(held: Registries, job: Job, writes: seq<Write>) {
    Distinct(job.targets) && job.reached <= |Wanted(held, job)| && writes == Wanted(held, job)[..job.reached]
  }

  /** One job alone. */
  ghost predicate Attempted(before: Registries, after: Registries, job: Job) {
    && Distinct(job.targets) && job.reached <= |Wanted(before, job)|
    && after == AllWritten(before, Wanted(before, job)[..job.reached])
  }

  // ---- jobs at once ------------------------------------------------------

  /** The jobs of one release that run at once: their writes, in the order they happened, and whose each was. */
  datatype Round = Round(jobs: seq<Job>, writes: seq<Write>, owners: seq<nat>)

  /** The writes one job made. */
  function OwnedBy(writes: seq<Write>, owners: seq<nat>, job: nat): seq<Write>
    requires |writes| == |owners|
  {
    if writes == [] then []
    else
      var last := |writes| - 1;
      OwnedBy(writes[..last], owners[..last], job) + if owners[last] == job then [writes[last]] else []
  }

  /** No two jobs build one target. */
  ghost predicate Apart(jobs: seq<Job>) {
    forall j, k, target ::
      0 <= j < |jobs| && 0 <= k < |jobs| && target in jobs[j].targets && target in jobs[k].targets ==> j == k
  }

  /** Each job writes the start of what it wanted, in its own order, whatever the others write between. */
  ghost predicate IsRound(before: Registries, round: Round) {
    && Apart(round.jobs) && |round.owners| == |round.writes|
    && (forall i :: 0 <= i < |round.owners| ==> round.owners[i] < |round.jobs|)
    && forall j :: 0 <= j < |round.jobs| ==> Stops(before, round.jobs[j], OwnedBy(round.writes, round.owners, j))
  }

  ghost predicate Follows(before: Registries, after: Registries, round: Round) {
    IsRound(before, round) && after == AllWritten(before, round.writes)
  }

  ghost predicate IsRun(states: seq<Registries>, rounds: seq<Round>) {
    && |states| == |rounds| + 1
    && forall n :: 0 <= n < |rounds| ==> Follows(states[n], states[n + 1], rounds[n])
  }

  /** One job alone is a round of one. */
  lemma AttemptIsARound(before: Registries, after: Registries, job: Job) returns (round: Round)
    requires Attempted(before, after, job)
    ensures round.jobs == [job] && Follows(before, after, round)
  {
    var writes := Wanted(before, job)[..job.reached];
    round := Round([job], writes, seq(|writes|, i => 0));
    OwnedAlone(writes, round.owners);
  }

  lemma {:induction false} OwnedAlone(writes: seq<Write>, owners: seq<nat>)
    requires |writes| == |owners| && forall i :: 0 <= i < |owners| ==> owners[i] == 0
    ensures OwnedBy(writes, owners, 0) == writes
  {
    if writes != [] {
      var last := |writes| - 1;
      OwnedAlone(writes[..last], owners[..last]);
      assert writes == writes[..last] + [writes[last]];
    }
  }

  /** What a job wants is settled by its own targets, so that others write meanwhile is no part of it. */
  lemma {:induction false} OnlyOwnTargetsCount(
    targets: seq<Target>, held: Registries, other: Registries, build: Build, channels: Channels, decision: Decision
  )
    requires forall target :: target in targets ==> At(held, target) == At(other, target)
    ensures Each(targets, held, build, channels, decision) == Each(targets, other, build, channels, decision)
  {
    if targets != [] {
      var last := |targets| - 1;
      assert targets[last] in targets;
      OnlyOwnTargetsCount(targets[..last], held, other, build, channels, decision);
    }
  }

  /** A job that reads what is held of its targets later, others having written theirs, wants the same. */
  lemma WantedWheneverRead(held: Registries, other: Registries, job: Job)
    requires forall target :: target in job.targets ==> At(held, target) == At(other, target)
    ensures Wanted(held, job) == Wanted(other, job)
  {
    OnlyOwnTargetsCount(job.targets, held, other, job.build, job.channels, PairOps);
    OnlyOwnTargetsCount(job.targets, held, other, job.build, job.channels, WheelOps);
    OnlyOwnTargetsCount(job.targets, held, other, job.build, job.channels, PackageOps);
  }

  // ---- a target through a round ------------------------------------------

  lemma {:induction false} EachIsOwn(
    targets: seq<Target>, held: Registries, build: Build, channels: Channels, decision: Decision, target: Target
  )
    requires target !in targets
    ensures Of(Each(targets, held, build, channels, decision), target) == []
  {
    if targets != [] {
      var front, last := targets[..|targets| - 1], targets[|targets| - 1];
      assert last in targets;
      EachIsOwn(front, held, build, channels, decision, target);
      var ops := decision(At(held, last), build, channels);
      OfForTarget(last, ops, target);
      OfJoins(Each(front, held, build, channels, decision), ForTarget(last, ops), target);
    }
  }

  /** The writes another job owns leave a target alone, so what happened to it is what its own job did. */
  lemma {:induction false} OfOwner(writes: seq<Write>, owners: seq<nat>, job: nat, target: Target)
    requires |writes| == |owners|
    requires forall i :: 0 <= i < |writes| && owners[i] != job ==> writes[i].target != target
    ensures Of(writes, target) == Of(OwnedBy(writes, owners, job), target)
  {
    if writes != [] {
      var last := |writes| - 1;
      var own := OwnedBy(writes[..last], owners[..last], job);
      OfOwner(writes[..last], owners[..last], job, target);
      if owners[last] == job {
        assert (own + [writes[last]])[..|own|] == own;
      } else {
        assert OwnedBy(writes, owners, job) == own;
      }
    }
  }

  lemma {:induction false} OwnedIs(writes: seq<Write>, owners: seq<nat>, i: nat)
    requires |writes| == |owners| && i < |writes|
    ensures writes[i] in OwnedBy(writes, owners, owners[i])
  {
    var last := |writes| - 1;
    if i < last {
      OwnedIs(writes[..last], owners[..last], i);
    }
  }

  lemma {:induction false} InOf(writes: seq<Write>, write: Write)
    requires write in writes
    ensures Of(writes, write.target) != []
  {
    var last := |writes| - 1;
    if writes[last] != write {
      assert writes == writes[..last] + [writes[last]];
      InOf(writes[..last], write);
    }
  }

  lemma WritesAreOwn(before: Registries, job: Job, writes: seq<Write>, write: Write)
    requires Stops(before, job, writes) && write in writes
    ensures write.target in job.targets
  {
    InOf(writes, write);
    OfAttempt(job.targets, before, job.build, job.channels, job.reached, write.target);
  }

  /**
   Whatever runs beside it, a target's own job wrote the start of what it was to get, and nothing
   else wrote to it.
   */
  lemma OfRound(before: Registries, round: Round, j: nat, target: Target)
    requires IsRound(before, round) && j < |round.jobs| && target in round.jobs[j].targets
    ensures Of(round.writes, target) <= TargetOps(At(before, target), round.jobs[j].build, round.jobs[j].channels)
  {
    var job, own := round.jobs[j], OwnedBy(round.writes, round.owners, j);
    forall i | 0 <= i < |round.writes| && round.owners[i] != j ensures round.writes[i].target != target {
      OtherTarget(before, round, i, j, target);
    }
    OfOwner(round.writes, round.owners, j, target);
    assert Stops(before, job, own);
    OfAttempt(job.targets, before, job.build, job.channels, job.reached, target);
  }

  lemma OtherTarget(before: Registries, round: Round, i: nat, j: nat, target: Target)
    requires IsRound(before, round) && i < |round.writes| && j < |round.jobs| && round.owners[i] != j
    requires target in round.jobs[j].targets
    ensures round.writes[i].target != target
  {
    var k := round.owners[i];
    OwnedIs(round.writes, round.owners, i);
    assert Stops(before, round.jobs[k], OwnedBy(round.writes, round.owners, k));
    WritesAreOwn(before, round.jobs[k], OwnedBy(round.writes, round.owners, k), round.writes[i]);
  }

  lemma OfNobody(before: Registries, round: Round, target: Target)
    requires IsRound(before, round) && forall j :: 0 <= j < |round.jobs| ==> target !in round.jobs[j].targets
    ensures Of(round.writes, target) == []
  {
    forall i | 0 <= i < |round.writes| ensures round.writes[i].target != target {
      var k := round.owners[i];
      OwnedIs(round.writes, round.owners, i);
      assert Stops(before, round.jobs[k], OwnedBy(round.writes, round.owners, k));
      WritesAreOwn(before, round.jobs[k], OwnedBy(round.writes, round.owners, k), round.writes[i]);
    }
    NoneOf(round.writes, target);
  }

  lemma {:induction false} NoneOf(writes: seq<Write>, target: Target)
    requires forall i :: 0 <= i < |writes| ==> writes[i].target != target
    ensures Of(writes, target) == []
  {
    if writes != [] {
      NoneOf(writes[..|writes| - 1], target);
    }
  }

  // ---- what every round keeps --------------------------------------------

  /** Whether whatever job of the round builds `target` is harmless to it. */
  ghost predicate RoundIsHarmless(before: Registries, round: Round, target: Target) {
    forall j :: 0 <= j < |round.jobs| && target in round.jobs[j].targets ==>
      Harmless(At(before, target), round.jobs[j].build, round.jobs[j].channels)
  }

  lemma RoundIsKept(before: Registries, after: Registries, round: Round, target: Target)
    requires Follows(before, after, round) && RoundIsHarmless(before, round, target) && Kept(At(before, target))
    ensures Kept(At(after, target))
  {
    EachTargetApart(before, round.writes, target);
    if j :| 0 <= j < |round.jobs| && target in round.jobs[j].targets {
      OfRound(before, round, j, target);
      TargetIsKept(At(before, target), round.jobs[j].build, round.jobs[j].channels, Of(round.writes, target));
    } else {
      OfNobody(before, round, target);
    }
  }

  lemma RoundKeepsPublished(before: Registries, after: Registries, round: Round, target: Target)
    requires Follows(before, after, round)
    ensures KeepsPublished(At(before, target), At(after, target))
  {
    EachTargetApart(before, round.writes, target);
    if j :| 0 <= j < |round.jobs| && target in round.jobs[j].targets {
      OfRound(before, round, j, target);
      TargetKeepsPublished(At(before, target), round.jobs[j].build, round.jobs[j].channels, Of(round.writes, target));
    } else {
      OfNobody(before, round, target);
    }
  }

  /**
   However many attempts a release takes, whatever channels each is let use and wherever each
   stops: while each is harmless where it starts, a target PyPI or npm holds has its whole pair
   on the Release, from one build, which one of them serves.
   */
  lemma {:induction false} PairsFollowTheRegistries(states: seq<Registries>, rounds: seq<Round>, n: nat, target: Target)
    requires IsRun(states, rounds) && states[0] == map[] && n < |states|
    requires forall m :: 0 <= m < n ==> RoundIsHarmless(states[m], rounds[m], target)
    ensures Kept(At(states[n], target))
  {
    if n > 0 {
      var last := n - 1;
      PairsFollowTheRegistries(states, rounds, last, target);
      assert Follows(states[last], states[last + 1], rounds[last]);
      RoundIsKept(states[last], states[n], rounds[last], target);
    }
  }

  /** Once PyPI or npm holds a target's file, no attempt ever changes it, whatever its channels. */
  lemma {:induction false} PublishedIsNeverReplaced(
    states: seq<Registries>, rounds: seq<Round>, m: nat, n: nat, target: Target
  )
    requires IsRun(states, rounds) && m <= n < |states|
    ensures KeepsPublished(At(states[m], target), At(states[n], target))
  {
    if m < n {
      var last := n - 1;
      PublishedIsNeverReplaced(states, rounds, m, last, target);
      assert Follows(states[last], states[last + 1], rounds[last]);
      RoundKeepsPublished(states[last], states[n], rounds[last], target);
    }
  }

  /** A pair PyPI or npm vouches for is never replaced in part: an attempt that sees why it is fixed finds it whole. */
  lemma NoPartPairIsEverFound(
    states: seq<Registries>, rounds: seq<Round>, n: nat, target: Target, build: Build, channels: Channels
  )
    requires IsRun(states, rounds) && states[0] == map[] && n < |states|
    requires forall m :: 0 <= m < n ==> RoundIsHarmless(states[m], rounds[m], target)
    requires Fixed(At(states[n], target), build, channels)
    ensures At(states[n], target).archive.Some? && At(states[n], target).checksum.Some?
    ensures PairOps(At(states[n], target), build, channels) == []
  {
    PairsFollowTheRegistries(states, rounds, n, target);
    HeldPairIsKept(At(states[n], target), build, channels);
  }

  // ---- when a round is harmless ------------------------------------------

  /** Whether every job of every round was let use the same channels. */
  ghost predicate OneSetOfChannels(rounds: seq<Round>, channels: Channels) {
    forall n, j :: 0 <= n < |rounds| && 0 <= j < |rounds[n].jobs| ==> rounds[n].jobs[j].channels == channels
  }

  /** Where the channels never change, every attempt is harmless, and so every pair follows. */
  lemma {:induction false} ConstantChannelsAreHarmless(
    states: seq<Registries>, rounds: seq<Round>, channels: Channels, n: nat, target: Target
  )
    requires IsRun(states, rounds) && states[0] == map[] && n < |states| && OneSetOfChannels(rounds, channels)
    ensures Kept(At(states[n], target)) && WithinChannels(At(states[n], target), channels)
    ensures n < |rounds| ==> RoundIsHarmless(states[n], rounds[n], target)
  {
    if n > 0 {
      var last := n - 1;
      ConstantChannelsAreHarmless(states, rounds, channels, last, target);
      assert Follows(states[last], states[last + 1], rounds[last]);
      RoundIsKept(states[last], states[n], rounds[last], target);
      RoundStaysWithin(states[last], states[n], rounds[last], channels, target);
    }
    if n < |rounds| {
      forall j | 0 <= j < |rounds[n].jobs| && target in rounds[n].jobs[j].targets
        ensures Harmless(At(states[n], target), rounds[n].jobs[j].build, rounds[n].jobs[j].channels)
      {
        SeenIsHarmless(At(states[n], target), rounds[n].jobs[j].build, channels);
      }
    }
  }

  lemma RoundStaysWithin(before: Registries, after: Registries, round: Round, channels: Channels, target: Target)
    requires Follows(before, after, round) && WithinChannels(At(before, target), channels)
    requires forall j :: 0 <= j < |round.jobs| ==> round.jobs[j].channels == channels
    ensures WithinChannels(At(after, target), channels)
  {
    EachTargetApart(before, round.writes, target);
    if j :| 0 <= j < |round.jobs| && target in round.jobs[j].targets {
      OfRound(before, round, j, target);
      TargetStaysWithin(At(before, target), round.jobs[j].build, channels, Of(round.writes, target));
    } else {
      OfNobody(before, round, target);
    }
  }

  /** And an attempt may be stopped anywhere exactly where it is harmless, which can be told before it starts. */
  lemma AttemptIsSafeExactlyWhereHarmless(before: Registries, job: Job, target: Target)
    requires Distinct(job.targets) && target in job.targets && Kept(At(before, target))
    ensures (forall after, reached: nat :: Attempted(before, after, job.(reached := reached)) ==>
               Kept(At(after, target)))
       <==> Harmless(At(before, target), job.build, job.channels)
  {
    var held, build, channels := At(before, target), job.build, job.channels;
    if Harmless(held, build, channels) {
      forall after, reached: nat | Attempted(before, after, job.(reached := reached)) ensures Kept(At(after, target)) {
        var writes := Wanted(before, job)[..reached];
        EachTargetApart(before, writes, target);
        OfAttempt(job.targets, before, build, channels, reached, target);
        TargetIsKept(held, build, channels, Of(writes, target));
      }
    } else {
      FirstWriteLosesIt(held, build, channels);
      var all := Wanted(before, job);
      OfAttempt(job.targets, before, build, channels, |all|, target);
      assert all[..|all|] == all;
      var reached := StoppedAt(all, target, [Delete(Archive)]);
      var after := AllWritten(before, all[..reached]);
      EachTargetApart(before, all[..reached], target);
      assert Attempted(before, after, job.(reached := reached));
    }
  }

  /** An attempt can be stopped with any start of a target's writes made. */
  lemma {:induction false} StoppedAt(writes: seq<Write>, target: Target, ops: seq<Op>) returns (reached: nat)
    requires ops <= Of(writes, target)
    ensures reached <= |writes| && Of(writes[..reached], target) == ops
    decreases |writes|
  {
    if ops == Of(writes, target) {
      reached := |writes|;
      assert writes[..reached] == writes;
    } else {
      var front := writes[..|writes| - 1];
      assert ops <= Of(front, target);
      reached := StoppedAt(front, target, ops);
      assert front[..reached] == writes[..reached];
    }
  }

  /** Whether an attempt of `build` would find nothing of another build where it cannot be replaced. */
  predicate OneBuildAhead(held: Held, build: Build) {
    match (held.pypi, held.npm)
    case (Some(wheel), Some(package)) => wheel == package
    case (Some(wheel), None) => wheel == build
    case (None, Some(package)) => package == build
    case (None, None) => true
  }

  /**
   An attempt that completes serves every registry; from one build exactly where what PyPI and npm
   held allowed it.
   */
  lemma CompletedServesOneBuild(before: Registries, after: Registries, job: Job, target: Target)
    requires job.channels == Channels(true, true) && Attempted(before, after, job)
    requires job.reached == |Wanted(before, job)| && target in job.targets
    requires Kept(At(before, target))
    ensures At(after, target).archive.Some? && At(after, target).checksum.Some?
    ensures At(after, target).pypi.Some? && At(after, target).npm.Some?
    ensures var held := At(after, target);
      held.archive == held.checksum == held.pypi == held.npm <==> OneBuildAhead(At(before, target), job.build)
  {
    var held, build, channels := At(before, target), job.build, job.channels;
    EachTargetApart(before, Wanted(before, job)[..job.reached], target);
    OfAttempt(job.targets, before, build, channels, job.reached, target);
    CompletedTarget(held, AllApplied(held, TargetOps(held, build, channels)), build, channels);
  }

  lemma CompletedTarget(held: Held, after: Held, build: Build, channels: Channels)
    requires channels == Channels(true, true) && Kept(held)
    requires after == AllApplied(held, TargetOps(held, build, channels))
    ensures after.archive.Some? && after.checksum.Some? && after.pypi.Some? && after.npm.Some?
    ensures after.archive == after.checksum == after.pypi == after.npm <==> OneBuildAhead(held, build)
  {
    var pair := PairOps(held, build, channels);
    var sent := WheelOps(held, build, channels) + PackageOps(held, build, channels);
    var paired := AllApplied(held, pair);
    PairThenSent(held, build, channels, pair, sent);
    PairApplied(held, build, channels);
    SentFills(paired, build, channels, sent);
    FilledIsOneBuild(held, paired, after, build, channels);
  }

  lemma PairThenSent(held: Held, build: Build, channels: Channels, pair: seq<Op>, sent: seq<Op>)
    requires pair == PairOps(held, build, channels)
    requires sent == WheelOps(held, build, channels) + PackageOps(held, build, channels)
    ensures AllApplied(held, TargetOps(held, build, channels)) == AllApplied(AllApplied(held, pair), sent)
  {
    assert TargetOps(held, build, channels) == pair + sent;
    AppliedJoins(held, pair, sent);
  }

  lemma FilledIsOneBuild(held: Held, paired: Held, after: Held, build: Build, channels: Channels)
    requires channels == Channels(true, true) && Kept(held)
    requires paired == Paired(held, build, channels)
    requires after == Filled(paired, build)
    ensures after.archive.Some? && after.checksum.Some? && after.pypi.Some? && after.npm.Some?
    ensures after.archive == after.checksum == after.pypi == after.npm <==> OneBuildAhead(held, build)
  {
    if held.pypi.Some? || held.npm.Some? {
      SeenIsHarmless(held, build, channels);
      HeldPairIsKept(held, build, channels);
    }
  }

  function Filled(paired: Held, build: Build): Held {
    paired.(pypi := Some(if paired.pypi.Some? then paired.pypi.value else build),
            npm := Some(if paired.npm.Some? then paired.npm.value else build))
  }

  lemma SentFills(paired: Held, build: Build, channels: Channels, sent: seq<Op>)
    requires channels.pypi && channels.npm
    requires sent == WheelOps(paired, build, channels) + PackageOps(paired, build, channels)
    ensures AllApplied(paired, sent) == Filled(paired, build)
  {
    if |sent| == 2 {
      assert sent == [Wheel(build), Package(build)];
      TwoApplied(paired, Wheel(build), Package(build));
    } else if |sent| == 1 {
      assert sent == [sent[0]];
      OneApplied(paired, sent[0]);
    } else {
      assert sent == [];
    }
  }

  /** PyPI switched off between two attempts: the second replaces the pair of the wheel PyPI still serves. */
  lemma ChangedChannelsLoseThePair(
    target: Target, first: Build, second: Build
  ) returns (one: Registries, two: Registries)
    requires first != second
    ensures Attempted(map[], one, Job([target], first, Channels(true, false), 3))
    ensures Attempted(one, two, Job([target], second, Channels(false, false), 4))
    ensures Kept(At(one, target)) && !Harmless(At(one, target), second, Channels(false, false))
    ensures !Kept(At(two, target))
  {
    one := FirstWithPyPI(target, first);
    two := SecondWithout(one, target, first, second);
  }

  lemma FirstWithPyPI(target: Target, first: Build) returns (one: Registries)
    ensures Attempted(map[], one, Job([target], first, Channels(true, false), 3))
    ensures At(one, target) == Held(Some(first), Some(first), Some(first), None)
  {
    var on := Job([target], first, Channels(true, false), 3);
    assert TargetOps(NOTHING, first, on.channels) == [Post(Archive, first), Post(Checksum, first), Wheel(first)];
    TargetIsSent(map[], on, target);
    one := AllWritten(map[], Wanted(map[], on)[..3]);
    EachTargetApart(map[], Wanted(map[], on)[..3], target);
    PostsApplied(first);
  }

  lemma SecondWithout(one: Registries, target: Target, first: Build, second: Build) returns (two: Registries)
    requires first != second && At(one, target) == Held(Some(first), Some(first), Some(first), None)
    ensures Attempted(one, two, Job([target], second, Channels(false, false), 4))
    ensures At(two, target) == Held(Some(second), Some(second), Some(first), None)
  {
    var off := Job([target], second, Channels(false, false), 4);
    var swaps := [Delete(Archive), Post(Archive, second), Delete(Checksum), Post(Checksum, second)];
    assert TargetOps(At(one, target), second, off.channels) == swaps;
    TargetIsSent(one, off, target);
    two := AllWritten(one, Wanted(one, off)[..4]);
    EachTargetApart(one, Wanted(one, off)[..4], target);
    PairApplied(At(one, target), second, off.channels);
    assert PairOps(At(one, target), second, off.channels) == swaps;
  }

  lemma PostsApplied(build: Build)
    ensures AllApplied(NOTHING, [Post(Archive, build), Post(Checksum, build), Wheel(build)])
         == Held(Some(build), Some(build), Some(build), None)
  {
    var posts := [Post(Archive, build), Post(Checksum, build)];
    TwoApplied(NOTHING, Post(Archive, build), Post(Checksum, build));
    OneApplied(Held(Some(build), Some(build), None, None), Wheel(build));
    AppliedJoins(NOTHING, posts, [Wheel(build)]);
    assert posts + [Wheel(build)] == [Post(Archive, build), Post(Checksum, build), Wheel(build)];
  }

  lemma TargetIsSent(held: Registries, job: Job, target: Target)
    requires job.targets == [target] && job.reached == |TargetOps(At(held, target), job.build, job.channels)|
    ensures Distinct(job.targets) && job.reached == |Wanted(held, job)|
    ensures Of(Wanted(held, job)[..job.reached], target) == TargetOps(At(held, target), job.build, job.channels)
  {
    EachOfOne(target, held, job.build, job.channels, PairOps);
    EachOfOne(target, held, job.build, job.channels, WheelOps);
    EachOfOne(target, held, job.build, job.channels, PackageOps);
    OfAttempt([target], held, job.build, job.channels, job.reached, target);
  }

  lemma EachOfOne(target: Target, held: Registries, build: Build, channels: Channels, decision: Decision)
    ensures |Each([target], held, build, channels, decision)| == |decision(At(held, target), build, channels)|
  {
    assert [target][..0] == [];
  }
}
