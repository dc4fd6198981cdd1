/**
 One publish attempt (release/release.py, `publish`, `holdings` and `Release.upload`),
 stopped wherever its host stops it.
 */
module PublishHost {
  import opened Publishing
  import opened PublishRuns
  import opened Wrappers

  /** What `writes` leave where the host lets `budget` of them through, and whether they all were. */
  ghost predicate Sent(before: Registries, budget: nat, writes: seq<Write>, after: Registries, left: nat, all: bool) {
    if all then after == AllWritten(before, writes) && budget == left + |writes|
    else budget < |writes| && left == 0 && after == AllWritten(before, writes[..budget])
  }

  lemma {:induction false} WrittenJoins(registries: Registries, a: seq<Write>, b: seq<Write>)
    ensures AllWritten(registries, a + b) == AllWritten(AllWritten(registries, a), b)
  {
    if b == [] {
      assert a + b == a;
    } else {
      var front, last := b[..|b| - 1], b[|b| - 1];
      WrittenJoins(registries, a, front);
      assert (a + b)[..|a + b| - 1] == a + front && (a + b)[|a + b| - 1] == last;
    }
  }

  lemma SentThen(
    before: Registries, budget: nat, a: seq<Write>, middle: Registries, between: nat, b: seq<Write>, after: Registries,
    left: nat, all: bool
  )
    requires Sent(before, budget, a, middle, between, true) && Sent(middle, between, b, after, left, all)
    ensures Sent(before, budget, a + b, after, left, all)
  {
    if all {
      WrittenJoins(before, a, b);
    } else {
      WrittenJoins(before, a, b[..between]);
      assert (a + b)[..budget] == a + b[..between];
    }
  }

  lemma SentStops(before: Registries, budget: nat, a: seq<Write>, after: Registries, left: nat, b: seq<Write>)
    requires Sent(before, budget, a, after, left, false)
    ensures Sent(before, budget, a + b, after, left, false)
  {
    assert (a + b)[..budget] == a[..budget];
  }

  /** What this attempt reads of one target: only the registries it uploads to. */
  function Seen(held: Held, channels: Channels): Held {
    held.(pypi := if channels.pypi then held.pypi else None, npm := if channels.npm then held.npm else None)
  }

  class Host {
    var registries: Registries
    var left: nat

    constructor (registries: Registries, left: nat)
      ensures this.registries == registries && this.left == left
    {
      this.registries, this.left := registries, left;
    }

    method Send(write: Write) returns (ok: bool)
      modifies this
      ensures Sent(old(registries), old(left), [write], registries, left, ok)
    {
      if left == 0 {
        assert [write][..0] == [];
        return false;
      }
      registries, left := Written(registries, write), left - 1;
      assert [write][..0] == [];
      return true;
    }

    method SendAll(writes: seq<Write>) returns (ok: bool)
      modifies this
      ensures Sent(old(registries), old(left), writes, registries, left, ok)
    {
      for i := 0 to |writes|
        invariant Sent(old(registries), old(left), writes[..i], registries, left, true)
      {
        label BEFORE:
        var went := Send(writes[i]);
        if !went {
          SentThen(old(registries), old(left), writes[..i], old@BEFORE(registries), old@BEFORE(left), [writes[i]],
            registries, left, false);
          assert writes == writes[..i] + [writes[i]] + writes[i + 1..];
          SentStops(old(registries), old(left), writes[..i] + [writes[i]], registries, left, writes[i + 1..]);
          return false;
        }
        SentThen(old(registries), old(left), writes[..i], old@BEFORE(registries), old@BEFORE(left), [writes[i]],
          registries, left, true);
        assert writes[..i + 1] == writes[..i] + [writes[i]];
      }
      assert writes[..|writes|] == writes;
      return true;
    }

    /** One asset uploaded: one already there is kept unless it is to be replaced, and then it is deleted first. */
    method Upload(target: Target, file: File, build: Build, replace: bool) returns (ok: bool)
      modifies this
      ensures Sent(old(registries), old(left),
        ForTarget(target, UploadOps(file, Asset(At(old(registries), target), file), build, replace)),
                   registries, left, ok)
    {
      var existing := Asset(At(registries, target), file);
      if existing.Some? && !replace {
        return true;
      }
      ghost var ops := UploadOps(file, existing, build, replace);
      if existing.Some? {
        assert ForTarget(target, ops) == [Write(target, Delete(file)), Write(target, Post(file, build))];
        ok := SendAll([Write(target, Delete(file)), Write(target, Post(file, build))]);
      } else {
        assert ForTarget(target, ops) == [Write(target, Post(file, build))];
        ok := SendAll([Write(target, Post(file, build))]);
      }
    }

    /** What the registries this attempt uploads to hold of each target, read before anything is written. */
    method Holdings(targets: seq<Target>, channels: Channels) returns (held: Registries)
      ensures forall target :: target in targets ==>
        target in held && held[target] == Seen(At(registries, target), channels)
    {
      held := map[];
      for i := 0 to |targets|
        invariant forall target :: target in targets[..i] ==>
          target in held && held[target] == Seen(At(registries, target), channels)
      {
        assert targets[..i + 1] == targets[..i] + [targets[i]];
        held := held[targets[i] := Seen(At(registries, targets[i]), channels)];
      }
      assert targets[..|targets|] == targets;
    }

    /** One target's pair on the Release: left as it is, or uploaded. */
    method PublishPair(target: Target, held: Held, build: Build, channels: Channels) returns (ok: bool)
      requires held == Seen(At(registries, target), channels)
      modifies this
      ensures Sent(old(registries), old(left), ForTarget(target, PairOps(At(old(registries), target), build, channels)),
        registries, left, ok)
    {
      if held.archive == Some(build) && held.checksum == Some(build) {
        return true;
      }
      var fixed := (channels.pypi && IsEarlier(held.pypi, build)) || (channels.npm && IsEarlier(held.npm, build));
      if fixed && held.archive.Some? && held.checksum.Some? {
        return true;
      }
      ok := UploadPair(target, held, build);
    }

    method UploadPair(target: Target, held: Held, build: Build) returns (ok: bool)
      requires held.archive == At(registries, target).archive && held.checksum == At(registries, target).checksum
      modifies this
      ensures Sent(old(registries), old(left),
        ForTarget(target, FileOps(Archive, held.archive, build) + FileOps(Checksum, held.checksum, build)),
                   registries, left, ok)
    {
      ghost var archive, checksum := FileOps(Archive, held.archive, build), FileOps(Checksum, held.checksum, build);
      PairJoins(target, archive, checksum);
      ok := Upload(target, Archive, build, IsEarlier(held.archive, build));
      UploadsAre(Archive, held.archive, build);
      if !ok {
        SentStops(old(registries), old(left), ForTarget(target, archive), registries, left,
          ForTarget(target, checksum));
        return;
      }
      label UPLOADED:
      ArchiveOnly(old(registries), target, archive);
      ok := Upload(target, Checksum, build, IsEarlier(held.checksum, build));
      UploadsAre(Checksum, held.checksum, build);
      SentThen(old(registries), old(left), ForTarget(target, archive), old@UPLOADED(registries), old@UPLOADED(left),
               ForTarget(target, checksum), registries, left, ok);
    }

    ghost predicate Awaits(targets: seq<Target>, held: Registries, before: Registries, channels: Channels)
      reads this
    {
      forall target :: target in targets ==>
        target in held && held[target] == Seen(At(registries, target), channels) &&
          At(registries, target) == At(before, target)
    }

    method PublishPairs(targets: seq<Target>, held: Registries, build: Build, channels: Channels) returns (ok: bool)
      requires Distinct(targets) && Awaits(targets, held, registries, channels)
      modifies this
      ensures Sent(old(registries), old(left), Each(targets, old(registries), build, channels, PairOps), registries,
        left, ok)
    {
      ghost var before := registries;
      for i := 0 to |targets|
        invariant Sent(before, old(left), Each(targets[..i], before, build, channels, PairOps), registries, left, true)
        invariant Awaits(targets[i..], held, before, channels)
      {
        label NEXT:
        ghost var ops := PairOps(At(before, targets[i]), build, channels);
        assert targets[i] in targets[i..];
        var went := PublishPair(targets[i], held[targets[i]], build, channels);
        EachNext(targets, before, build, channels, PairOps, i, targets[..i], targets[..i + 1]);
        SentThen(before, old(left), Each(targets[..i], before, build, channels, PairOps), old@NEXT(registries),
          old@NEXT(left),
                 ForTarget(targets[i], ops), registries, left, went);
        if !went {
          ghost var rest := EachRest(targets, before, build, channels, PairOps, targets[..i + 1]);
          SentStops(before, old(left), Each(targets[..i + 1], before, build, channels, PairOps), registries, left,
            rest);
          return false;
        }
        forall target | target in targets[i + 1..]
          ensures target in held && held[target] == Seen(At(registries, target), channels) &&
            At(registries, target) == At(before, target)
        {
          assert target in targets[i..] && target != targets[i];
          OthersUntouched(old@NEXT(registries), targets[i], ops, target);
        }
      }
      assert targets[..|targets|] == targets;
      return true;
    }

    /** One attempt: the Release's pairs, then the wheels PyPI has none of, then the packages npm has none of. */
    method Publish(targets: seq<Target>, build: Build, channels: Channels) returns (done: bool)
      requires Distinct(targets)
      modifies this
      ensures Sent(old(registries), old(left), Attempt(targets, old(registries), build, channels), registries, left,
        done)
    {
      ghost var before := registries;
      ghost var pairs := Each(targets, before, build, channels, PairOps);
      var held := Holdings(targets, channels);
      var wheels, packages := Missing(targets, held, before, build, channels);
      done := PublishPairs(targets, held, build, channels);
      if !done {
        SentStops(before, old(left), pairs, registries, left, wheels);
        SentStops(before, old(left), pairs + wheels, registries, left, packages);
        return;
      }
      label PAIRED:
      done := SendAll(wheels);
      SentThen(before, old(left), pairs, old@PAIRED(registries), old@PAIRED(left), wheels, registries, left, done);
      if !done {
        SentStops(before, old(left), pairs + wheels, registries, left, packages);
        return;
      }
      label WHEELED:
      done := SendAll(packages);
      SentThen(before, old(left), pairs + wheels, old@WHEELED(registries), old@WHEELED(left), packages, registries,
        left, done);
    }
  }

  /** The wheels and packages no registry held when it was read. */
  method Missing(targets: seq<Target>, held: Registries, ghost before: Registries, build: Build, channels: Channels)
    returns (wheels: seq<Write>, packages: seq<Write>)
    requires forall target :: target in targets ==> target in held && held[target] == Seen(At(before, target), channels)
    ensures wheels == Each(targets, before, build, channels, WheelOps)
    ensures packages == Each(targets, before, build, channels, PackageOps)
  {
    wheels, packages := [], [];
    for i := 0 to |targets|
      invariant wheels == Each(targets[..i], before, build, channels, WheelOps)
      invariant packages == Each(targets[..i], before, build, channels, PackageOps)
    {
      var seen := held[targets[i]];
      SeenDecides(At(before, targets[i]), build, channels);
      EachNext(targets, before, build, channels, WheelOps, i, targets[..i], targets[..i + 1]);
      EachNext(targets, before, build, channels, PackageOps, i, targets[..i], targets[..i + 1]);
      if channels.pypi && seen.pypi.None? {
        wheels := wheels + ForTarget(targets[i], [Wheel(build)]);
      }
      if channels.npm && seen.npm.None? {
        packages := packages + ForTarget(targets[i], [Package(build)]);
      }
    }
    assert targets[..|targets|] == targets;
  }

  /** Each target's writes are in its turn. */
  lemma EachNext(
    targets: seq<Target>, held: Registries, build: Build, channels: Channels, decision: Decision, i: nat,
    front: seq<Target>, next: seq<Target>
  )
    requires i < |targets| && front == targets[..i] && next == targets[..i + 1]
    ensures Each(next, held, build, channels, decision) ==
            Each(front, held, build, channels, decision) +
              ForTarget(targets[i], decision(At(held, targets[i]), build, channels))
  {
    assert next[..|next| - 1] == front && next[|next| - 1] == targets[i];
  }

  lemma {:induction false} EachRest(
    targets: seq<Target>, held: Registries, build: Build, channels: Channels, decision: Decision, front: seq<Target>
  ) returns (rest: seq<Write>)
    requires front <= targets
    ensures Each(targets, held, build, channels, decision) == Each(front, held, build, channels, decision) + rest
    decreases |targets|
  {
    if |front| == |targets| {
      assert front == targets;
      rest := [];
    } else {
      var before, last := targets[..|targets| - 1], targets[|targets| - 1];
      var some := EachRest(before, held, build, channels, decision, front);
      var ops := ForTarget(last, decision(At(held, last), build, channels));
      Rejoined(Each(front, held, build, channels, decision), some, ops);
      rest := some + ops;
    }
  }

  lemma Rejoined(a: seq<Write>, b: seq<Write>, c: seq<Write>)
    ensures a + b + c == a + (b + c)
  {
  }

  lemma OthersUntouched(registries: Registries, target: Target, ops: seq<Op>, other: Target)
    requires other != target
    ensures At(AllWritten(registries, ForTarget(target, ops)), other) == At(registries, other)
  {
    EachTargetApart(registries, ForTarget(target, ops), other);
    OfForTarget(target, ops, other);
  }

  /** What an attempt reads decides the same as all there is to read. */
  lemma SeenDecides(held: Held, build: Build, channels: Channels)
    ensures WheelOps(Seen(held, channels), build, channels) == WheelOps(held, build, channels)
    ensures PackageOps(Seen(held, channels), build, channels) == PackageOps(held, build, channels)
  {
  }

  /** A whole attempt, stopped or not, is what a run says of one. */
  lemma AnAttemptIsAStep(before: Registries, budget: nat, after: Registries, left: nat, all: bool, job: Job)
    requires Distinct(job.targets) && job.reached == budget - left
    requires Sent(before, budget, Attempt(job.targets, before, job.build, job.channels), after, left, all)
    ensures Attempted(before, after, job)
  {
    var writes := Wanted(before, job);
    assert writes[..|writes|] == writes;
  }

  lemma UploadsAre(file: File, held: Option<Build>, build: Build)
    ensures UploadOps(file, held, build, IsEarlier(held, build)) == FileOps(file, held, build)
  {
  }

  function UploadOps(file: File, existing: Option<Build>, build: Build, replace: bool): seq<Op> {
    if existing.Some? && !replace then []
    else (if existing.Some? then [Delete(file)] else []) + [Post(file, build)]
  }

  lemma PairJoins(target: Target, a: seq<Op>, b: seq<Op>)
    ensures ForTarget(target, a + b) == ForTarget(target, a) + ForTarget(target, b)
  {
  }

  /** Uploading the archive leaves the checksum as it was. */
  lemma ArchiveOnly(registries: Registries, target: Target, ops: seq<Op>)
    requires forall op :: op in ops ==> OnRelease(op) && op.file == Archive
    ensures At(AllWritten(registries, ForTarget(target, ops)), target).checksum == At(registries, target).checksum
  {
    EachTargetApart(registries, ForTarget(target, ops), target);
    OfForTarget(target, ops, target);
    ArchiveOpsOnly(At(registries, target), ops);
  }

  lemma {:induction false} ArchiveOpsOnly(held: Held, ops: seq<Op>)
    requires forall op :: op in ops ==> OnRelease(op) && op.file == Archive
    ensures AllApplied(held, ops).checksum == held.checksum
  {
    if ops != [] {
      assert ops[|ops| - 1] in ops;
      ArchiveOpsOnly(held, ops[..|ops| - 1]);
    }
  }
}
