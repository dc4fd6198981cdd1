/**
 Publishing a release that may be re-run (release/release.py, `publish`): what an attempt
 writes to the Release, PyPI and npm, given what each already holds, and what any number
 of attempts leave there, each stopped anywhere.

 Two builds of one release differ in every file, so a file is named by the build it came from.
 */
module Publishing {
  import opened Wrappers

  type Build = nat
  type Target = string

  /** The registries a job may upload wheels and packages to; the Release always takes its pair. */
  datatype Channels = Channels(pypi: bool, npm: bool)

  datatype File = Archive | Checksum

  /** What the three registries hold of one target. */
  datatype Held = Held(archive: Option<Build>, checksum: Option<Build>, pypi: Option<Build>, npm: Option<Build>)

  const NOTHING := Held(None, None, None, None)

  type Registries = map<Target, Held>

  datatype Op = Delete(file: File) | Post(file: File, build: Build) | Wheel(build: Build) | Package(build: Build)

  datatype Write = Write(target: Target, op: Op)

  function At(registries: Registries, target: Target): Held {
    if target in registries then registries[target] else NOTHING
  }

  function Asset(held: Held, file: File): Option<Build> {
    if file == Archive then held.archive else held.checksum
  }

  function WithAsset(held: Held, file: File, asset: Option<Build>): Held {
    if file == Archive then held.(archive := asset) else held.(checksum := asset)
  }

  function Applied(held: Held, op: Op): Held {
    match op
    case Delete(file) => WithAsset(held, file, None)
    case Post(file, build) => WithAsset(held, file, Some(build))
    case Wheel(build) => held.(pypi := Some(build))
    case Package(build) => held.(npm := Some(build))
  }

  function Written(registries: Registries, write: Write): Registries {
    registries[write.target := Applied(At(registries, write.target), write.op)]
  }

  function AllApplied(held: Held, ops: seq<Op>): Held {
    if ops == [] then held else Applied(AllApplied(held, ops[..|ops| - 1]), ops[|ops| - 1])
  }

  function AllWritten(registries: Registries, writes: seq<Write>): Registries {
    if writes == [] then registries else Written(AllWritten(registries, writes[..|writes| - 1]), writes[|writes| - 1])
  }

  // ---- what one attempt writes -------------------------------------------

  predicate IsEarlier(held: Option<Build>, build: Build) {
    held.Some? && held.value != build
  }

  /** Whether an attempt sees another build of the target on PyPI or npm, where it stays. */
  predicate Fixed(held: Held, build: Build, channels: Channels) {
    (channels.pypi && IsEarlier(held.pypi, build)) || (channels.npm && IsEarlier(held.npm, build))
  }

  function FileOps(file: File, held: Option<Build>, build: Build): seq<Op> {
    if held == Some(build) then []
    else (if held.Some? then [Delete(file)] else []) + [Post(file, build)]
  }

  predicate KeepsPair(held: Held, build: Build, channels: Channels) {
    || (held.archive == Some(build) && held.checksum == Some(build))
    || (Fixed(held, build, channels) && held.archive.Some? && held.checksum.Some?)
  }

  /** The Release's archive and checksum: kept, or made this build's, as a pair. */
  function PairOps(held: Held, build: Build, channels: Channels): seq<Op> {
    if KeepsPair(held, build, channels) then []
    else FileOps(Archive, held.archive, build) + FileOps(Checksum, held.checksum, build)
  }

  function WheelOps(held: Held, build: Build, channels: Channels): seq<Op> {
    if channels.pypi && held.pypi.None? then [Wheel(build)] else []
  }

  function PackageOps(held: Held, build: Build, channels: Channels): seq<Op> {
    if channels.npm && held.npm.None? then [Package(build)] else []
  }

  function ForTarget(target: Target, ops: seq<Op>): (writes: seq<Write>)
    ensures |writes| == |ops| && forall i :: 0 <= i < |ops| ==> writes[i] == Write(target, ops[i])
  {
    seq(|ops|, i requires 0 <= i < |ops| => Write(target, ops[i]))
  }

  type Decision = (Held, Build, Channels) -> seq<Op>

  function Each(
    targets: seq<Target>, held: Registries, build: Build, channels: Channels, decision: Decision
  ): seq<Write> {
    if targets == [] then []
    else
      var last := targets[|targets| - 1];
      Each(targets[..|targets| - 1], held, build, channels, decision) +
        ForTarget(last, decision(At(held, last), build, channels))
  }

  /** Everything an attempt writes, in order: every pair, then every wheel, then every package. */
  function Attempt(targets: seq<Target>, held: Registries, build: Build, channels: Channels): seq<Write> {
    Each(targets, held, build, channels, PairOps) +
    Each(targets, held, build, channels, WheelOps) +
    Each(targets, held, build, channels, PackageOps)
  }

  function TargetOps(held: Held, build: Build, channels: Channels): seq<Op> {
    PairOps(held, build, channels) + WheelOps(held, build, channels) + PackageOps(held, build, channels)
  }

  // ---- a target at a time ------------------------------------------------

  function Of(writes: seq<Write>, target: Target): seq<Op> {
    if writes == [] then []
    else
      var last := writes[|writes| - 1];
      Of(writes[..|writes| - 1], target) + if last.target == target then [last.op] else []
  }

  lemma {:induction false} EachTargetApart(registries: Registries, writes: seq<Write>, target: Target)
    ensures At(AllWritten(registries, writes), target) == AllApplied(At(registries, target), Of(writes, target))
  {
    if writes != [] {
      var front, last := writes[..|writes| - 1], writes[|writes| - 1];
      EachTargetApart(registries, front, target);
      var ops := Of(front, target);
      if last.target == target {
        assert (ops + [last.op])[..|ops|] == ops;
      } else {
        assert Of(writes, target) == ops;
      }
    }
  }

  lemma {:induction false} OfJoins(a: seq<Write>, b: seq<Write>, target: Target)
    ensures Of(a + b, target) == Of(a, target) + Of(b, target)
  {
    if b == [] {
      assert a + b == a;
    } else {
      var front, last := b[..|b| - 1], b[|b| - 1];
      OfJoins(a, front, target);
      assert (a + b)[..|a + b| - 1] == a + front && (a + b)[|a + b| - 1] == last;
    }
  }

  lemma {:induction false} OfForTarget(target: Target, ops: seq<Op>, other: Target)
    ensures Of(ForTarget(target, ops), other) == if target == other then ops else []
  {
    if ops != [] {
      var front := ops[..|ops| - 1];
      OfForTarget(target, front, other);
      assert ForTarget(target, ops)[..|ops| - 1] == ForTarget(target, front);
      assert ops == front + [ops[|ops| - 1]];
    }
  }

  ghost predicate Distinct(targets: seq<Target>) {
    forall i, j :: 0 <= i < j < |targets| ==> targets[i] != targets[j]
  }

  lemma {:induction false} OfEach(
    targets: seq<Target>, held: Registries, build: Build, channels: Channels, decision: Decision, target: Target
  )
    requires Distinct(targets)
    ensures Of(Each(targets, held, build, channels, decision), target) ==
            if target in targets then decision(At(held, target), build, channels) else []
  {
    if targets != [] {
      var front, last := targets[..|targets| - 1], targets[|targets| - 1];
      assert targets == front + [last];
      OfEach(front, held, build, channels, decision, target);
      var ops := decision(At(held, last), build, channels);
      OfForTarget(last, ops, target);
      OfJoins(Each(front, held, build, channels, decision), ForTarget(last, ops), target);
      InEither(targets, front, last, target);
    }
  }

  lemma InEither(targets: seq<Target>, front: seq<Target>, last: Target, target: Target)
    requires Distinct(targets) && targets == front + [last]
    ensures target in targets <==> target in front || target == last
    ensures target in front ==> target != last
  {
    if target in front {
      var i :| 0 <= i < |front| && front[i] == target;
      assert targets[i] != targets[|front|];
    }
  }

  /** What a stopped attempt wrote of one target is the start of what that target was to get. */
  lemma OfAttempt(
    targets: seq<Target>, held: Registries, build: Build, channels: Channels, reached: nat, target: Target
  )
    requires Distinct(targets) && reached <= |Attempt(targets, held, build, channels)|
    ensures Of(Attempt(targets, held, build, channels)[..reached], target) <=
            if target in targets then TargetOps(At(held, target), build, channels) else []
    ensures reached == |Attempt(targets, held, build, channels)| && target in targets ==>
              Of(Attempt(targets, held, build, channels)[..reached], target) ==
                TargetOps(At(held, target), build, channels)
  {
    var pairs := Each(targets, held, build, channels, PairOps);
    var wheels := Each(targets, held, build, channels, WheelOps);
    var packages := Each(targets, held, build, channels, PackageOps);
    OfEach(targets, held, build, channels, PairOps, target);
    OfEach(targets, held, build, channels, WheelOps, target);
    OfEach(targets, held, build, channels, PackageOps, target);
    OfJoins(pairs, wheels, target);
    OfJoins(pairs + wheels, packages, target);
    OfStart(Attempt(targets, held, build, channels), reached, target);
  }

  lemma OfStart(writes: seq<Write>, reached: nat, target: Target)
    requires reached <= |writes|
    ensures Of(writes[..reached], target) <= Of(writes, target)
    ensures reached == |writes| ==> Of(writes[..reached], target) == Of(writes, target)
  {
    assert writes == writes[..reached] + writes[reached..];
    OfJoins(writes[..reached], writes[reached..], target);
    if reached == |writes| {
      assert writes[..reached] == writes;
    }
  }

  // ---- what every attempt keeps ------------------------------------------

  /** Whether the Release serves a whole pair of one build, which PyPI or npm serves too. */
  ghost predicate PairFollows(held: Held) {
    && held.archive.Some? && held.checksum == held.archive
    && (held.pypi == held.archive || held.npm == held.archive)
  }

  /** Where PyPI or npm holds anything of a target, the Release's pair follows one of them. */
  ghost predicate Kept(held: Held) {
    held.pypi.Some? || held.npm.Some? ==> PairFollows(held)
  }

  /** Keeping what PyPI and npm hold: neither ever replaces a file. */
  ghost predicate KeepsPublished(before: Held, after: Held) {
    && (before.pypi.Some? ==> after.pypi == before.pypi)
    && (before.npm.Some? ==> after.npm == before.npm)
  }

  predicate OnRelease(op: Op) {
    op.Delete? || op.Post?
  }

  lemma {:induction false} ReleaseOpsLeaveTheOthers(held: Held, ops: seq<Op>)
    requires forall op :: op in ops ==> OnRelease(op)
    ensures AllApplied(held, ops).pypi == held.pypi && AllApplied(held, ops).npm == held.npm
  {
    if ops != [] {
      assert ops[|ops| - 1] in ops;
      ReleaseOpsLeaveTheOthers(held, ops[..|ops| - 1]);
    }
  }

  lemma {:induction false} AppliedJoins(held: Held, a: seq<Op>, b: seq<Op>)
    ensures AllApplied(held, a + b) == AllApplied(AllApplied(held, a), b)
  {
    if b == [] {
      assert a + b == a;
    } else {
      var front, last := b[..|b| - 1], b[|b| - 1];
      AppliedJoins(held, a, front);
      assert (a + b)[..|a + b| - 1] == a + front && (a + b)[|a + b| - 1] == last;
    }
  }

  lemma OneApplied(held: Held, op: Op)
    ensures AllApplied(held, [op]) == Applied(held, op)
  {
    assert [op][..0] == [];
  }

  lemma TwoApplied(held: Held, first: Op, second: Op)
    ensures AllApplied(held, [first, second]) == Applied(Applied(held, first), second)
  {
    assert [first, second][..1] == [first];
    OneApplied(held, first);
  }

  /** One file's upload, with or without a replacement, leaves this build's. */
  lemma FileApplied(held: Held, file: File, build: Build)
    ensures AllApplied(held, FileOps(file, Asset(held, file), build)) == WithAsset(held, file, Some(build))
  {
    if Asset(held, file).None? {
      OneApplied(held, Post(file, build));
    } else {
      TwoApplied(held, Delete(file), Post(file, build));
    }
  }

  function Paired(held: Held, build: Build, channels: Channels): Held {
    if KeepsPair(held, build, channels) then held else held.(archive := Some(build), checksum := Some(build))
  }

  /** Whether a registry this attempt writes to holds another build of a target, which it never replaces. */
  ghost predicate HeldElsewhere(held: Held, build: Build, channels: Channels) {
    || (channels.pypi && held.pypi.Some? && held.pypi.value != build)
    || (channels.npm && held.npm.Some? && held.npm.value != build)
  }

  /**
   A whole pair stays where it is this build's or another registry holds another's; any other is made
   this build's.
   */
  lemma PairApplied(held: Held, build: Build, channels: Channels)
    ensures AllApplied(held, PairOps(held, build, channels)) == Paired(held, build, channels)
    ensures Paired(held, build, channels) ==
      if held.archive.Some? && held.checksum.Some? &&
         (held.archive == held.checksum == Some(build) || HeldElsewhere(held, build, channels)) then held
      else held.(archive := Some(build), checksum := Some(build))
  {
    if !KeepsPair(held, build, channels) {
      var archived := held.(archive := Some(build));
      FileApplied(held, Archive, build);
      FileApplied(archived, Checksum, build);
      AppliedJoins(held, FileOps(Archive, held.archive, build), FileOps(Checksum, held.checksum, build));
    }
  }

  /**
   Whether an attempt may be stopped anywhere and leave the pair following: nothing is
   published yet, or the pair is this build's, or a file this attempt sees keeps it as it is.
   */
  predicate Harmless(held: Held, build: Build, channels: Channels) {
    (held.pypi.None? && held.npm.None?) || held.archive == Some(build) || Fixed(held, build, channels)
  }

  /** A published pair no attempt of this kind touches: its part-pair case cannot arise. */
  lemma HeldPairIsKept(held: Held, build: Build, channels: Channels)
    requires Kept(held) && (held.pypi.Some? || held.npm.Some?)
    ensures Harmless(held, build, channels) <==> KeepsPair(held, build, channels)
    ensures Harmless(held, build, channels) <==> PairOps(held, build, channels) == []
    ensures Fixed(held, build, channels) ==> held.archive.Some? && held.checksum.Some?
  {
    if !KeepsPair(held, build, channels) {
      assert PairOps(held, build, channels)[0] == Delete(Archive);
    }
  }

  /** One target through an attempt stopped anywhere. */
  lemma TargetIsKept(held: Held, build: Build, channels: Channels, ops: seq<Op>)
    requires Kept(held) && Harmless(held, build, channels)
    requires ops <= TargetOps(held, build, channels)
    ensures Kept(AllApplied(held, ops))
  {
    var pair := PairOps(held, build, channels);
    var rest := WheelOps(held, build, channels) + PackageOps(held, build, channels);
    assert TargetOps(held, build, channels) == pair + rest;
    if |ops| <= |pair| {
      StoppedInThePair(held, build, channels, ops);
    } else {
      var sent := ops[|pair|..];
      assert ops == pair + sent && sent <= rest;
      AppliedJoins(held, pair, sent);
      PairApplied(held, build, channels);
      SentIsKept(held, AllApplied(held, pair), build, channels, sent);
    }
  }

  lemma StoppedInThePair(held: Held, build: Build, channels: Channels, ops: seq<Op>)
    requires Kept(held) && Harmless(held, build, channels) && ops <= PairOps(held, build, channels)
    ensures Kept(AllApplied(held, ops))
  {
    ReleaseOpsLeaveTheOthers(held, ops);
    if held.pypi.Some? || held.npm.Some? {
      HeldPairIsKept(held, build, channels);
    }
  }

  /** Past its pair, a target is sent to PyPI and npm with the pair already theirs, or already this build's. */
  lemma SentIsKept(held: Held, paired: Held, build: Build, channels: Channels, sent: seq<Op>)
    requires Kept(held) && Harmless(held, build, channels)
    requires paired == Paired(held, build, channels)
    requires sent <= WheelOps(held, build, channels) + PackageOps(held, build, channels)
    ensures Kept(AllApplied(paired, sent))
  {
    if held.pypi.Some? || held.npm.Some? {
      HeldPairIsKept(held, build, channels);
    }
    if |sent| == 2 {
      assert sent == [Wheel(build), Package(build)];
      TwoApplied(paired, Wheel(build), Package(build));
    } else if |sent| == 1 {
      assert sent == [sent[0]];
      OneApplied(paired, sent[0]);
    }
  }

  /**
   Exactly when an attempt is safe to stop anywhere: a caller can tell from what the
   registries hold before it. Otherwise its first write takes away a published archive.
   */
  lemma SafeExactlyWhereHarmless(held: Held, build: Build, channels: Channels)
    requires Kept(held)
    ensures (forall ops :: ops <= TargetOps(held, build, channels) ==> Kept(AllApplied(held, ops))) <==>
      Harmless(held, build, channels)
  {
    if Harmless(held, build, channels) {
      forall ops | ops <= TargetOps(held, build, channels) ensures Kept(AllApplied(held, ops)) {
        TargetIsKept(held, build, channels, ops);
      }
    } else {
      FirstWriteLosesIt(held, build, channels);
    }
  }

  lemma FirstWriteLosesIt(held: Held, build: Build, channels: Channels)
    requires Kept(held) && !Harmless(held, build, channels)
    ensures [Delete(Archive)] <= TargetOps(held, build, channels) && !Kept(AllApplied(held, [Delete(Archive)]))
  {
    HeldPairIsKept(held, build, channels);
    OneApplied(held, Delete(Archive));
    var pair := PairOps(held, build, channels);
    assert pair[0] == Delete(Archive) && TargetOps(held, build, channels)[0] == pair[0];
  }

  /** Whatever its channels, an attempt asks PyPI and npm for nothing they hold. */
  lemma TargetKeepsPublished(held: Held, build: Build, channels: Channels, ops: seq<Op>)
    requires ops <= TargetOps(held, build, channels)
    ensures KeepsPublished(held, AllApplied(held, ops))
  {
    var pair := PairOps(held, build, channels);
    var rest := WheelOps(held, build, channels) + PackageOps(held, build, channels);
    assert TargetOps(held, build, channels) == pair + rest;
    if |ops| <= |pair| {
      assert ops == pair[..|ops|];
      ReleaseOpsLeaveTheOthers(held, ops);
    } else {
      var sent := ops[|pair|..];
      assert ops == pair + sent && sent <= rest;
      AppliedJoins(held, pair, sent);
      PairApplied(held, build, channels);
      SentKeepsPublished(held, AllApplied(held, pair), build, channels, sent);
    }
  }

  lemma SentKeepsPublished(held: Held, paired: Held, build: Build, channels: Channels, sent: seq<Op>)
    requires paired.pypi == held.pypi && paired.npm == held.npm
    requires sent <= WheelOps(held, build, channels) + PackageOps(held, build, channels)
    ensures KeepsPublished(held, AllApplied(paired, sent))
  {
    if |sent| == 2 {
      assert sent == [Wheel(build), Package(build)];
      TwoApplied(paired, Wheel(build), Package(build));
    } else if |sent| == 1 {
      assert sent == [sent[0]];
      OneApplied(paired, sent[0]);
    }
  }

  /** Under channels that never change, what is published is always seen, so every attempt is harmless. */
  ghost predicate WithinChannels(held: Held, channels: Channels) {
    (held.pypi.Some? ==> channels.pypi) && (held.npm.Some? ==> channels.npm)
  }

  lemma SeenIsHarmless(held: Held, build: Build, channels: Channels)
    requires Kept(held) && WithinChannels(held, channels)
    ensures Harmless(held, build, channels)
  {
  }

  lemma TargetStaysWithin(held: Held, build: Build, channels: Channels, ops: seq<Op>)
    requires ops <= TargetOps(held, build, channels) && WithinChannels(held, channels)
    ensures WithinChannels(AllApplied(held, ops), channels)
  {
    forall op | op in ops ensures (op.Wheel? ==> channels.pypi) && (op.Package? ==> channels.npm) {
      assert op in TargetOps(held, build, channels);
    }
    OpsStayWithin(held, channels, ops);
  }

  lemma {:induction false} OpsStayWithin(held: Held, channels: Channels, ops: seq<Op>)
    requires WithinChannels(held, channels)
    requires forall op :: op in ops ==> (op.Wheel? ==> channels.pypi) && (op.Package? ==> channels.npm)
    ensures WithinChannels(AllApplied(held, ops), channels)
  {
    if ops != [] {
      assert ops[|ops| - 1] in ops;
      OpsStayWithin(held, channels, ops[..|ops| - 1]);
    }
  }
}
