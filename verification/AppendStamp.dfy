/**
 Append continuity (src/appendstamp.rs, and src/ledger.rs `write_record`): a receipt each
 locked append leaves beside the journal, by which a reader knows that what it read before
 is still a prefix of the file.

 The journal's own metadata is a length and a `tag`, which stands for its change and
 modification times and its identity: a change of the file gives it one it never had.
 */
module AppendStamp {
  import opened Wrappers

  type Tag = nat
  type Epoch = nat

  const VERSION := 1

  datatype Stamp = Stamp(len: nat, tag: Tag)

  datatype Receipt = Receipt(version: nat, epoch: Epoch, stamp: Stamp)

  /** Whether a later receipt vouches for what a reader of an earlier one holds. */
  predicate Continues(later: Receipt, earlier: Receipt) {
    later.epoch == earlier.epoch && later.stamp.len >= earlier.stamp.len
  }

  /** A receipt read beside a journal with this stamp: one of this version that was published over it. */
  function Read(held: Option<Receipt>, stamp: Stamp): Option<Receipt> {
    if held.Some? && held.value.version == VERSION && held.value.stamp == stamp then held else None
  }

  /** A writer holding the journal's lock: the receipt it will publish, and where its append starts. */
  datatype Writer = Writer(receipt: Option<Receipt>, boundary: nat)

  /**
   The journal and its receipt, with the writer inside its lock. `seen` and `minted` are
   every tag the file ever had and every epoch any writer ever began.
   */
  datatype World = World(
    content: seq<Byte>,
    tag: Tag,
    receipt: Option<Receipt>,
    writer: Option<Writer>,
    seen: set<Tag>,
    minted: set<Epoch>
  )

  function StampOf(world: World): Stamp {
    Stamp(|world.content|, world.tag)
  }

  function ReadIn(world: World): Option<Receipt> {
    Read(world.receipt, StampOf(world))
  }

  /** The receipt a writer starts from: the epoch of the one published over this very file, or one of its own. */
  function Before(held: Option<Receipt>, stamp: Stamp, minting: Epoch): Receipt {
    Receipt(VERSION, if Read(held, stamp).Some? then held.value.epoch else minting, stamp)
  }

  // ---- the steps of a run ------------------------------------------------

  datatype Step =
    | Begin(stamped: bool, minting: Epoch)
    | Write(bytes: seq<Byte>, tag: Tag)
    | End(published: bool)
    | Undo(tag: Tag)
    | Crash
    | Change(content: seq<Byte>, tag: Tag)
    | Forget

  /** Which steps can be taken: an editor takes no lock, so it changes the file whenever it likes. */
  predicate Enabled(world: World, step: Step) {
    match step
    case Begin(_, minting) => world.writer.None? && minting !in world.minted
    case Write(_, tag) => world.writer.Some? && tag !in world.seen
    case End(_) => world.writer.Some?
    case Undo(tag) => world.writer.Some? && tag !in world.seen
    case Crash => world.writer.Some?
    case Change(_, tag) => tag !in world.seen
    case Forget => true
  }

  function Changed(world: World, content: seq<Byte>, tag: Tag): World {
    world.(content := content, tag := tag, seen := world.seen + {tag})
  }

  /** A file set to a length: cut there, or filled up to it with zeros. */
  function CutTo(content: seq<Byte>, length: nat): (cut: seq<Byte>)
    ensures |cut| == length
    ensures forall i :: 0 <= i < length ==> cut[i] == if i < |content| then content[i] else 0
  {
    if length <= |content| then content[..length] else content + seq(length - |content|, i => 0)
  }

  function Published(world: World, receipt: Option<Receipt>): World {
    if receipt.Some? then world.(receipt := Some(receipt.value.(stamp := StampOf(world)))) else world
  }

  function Taken(world: World, step: Step): World
    requires Enabled(world, step)
  {
    match step
    case Begin(stamped, minting) =>
      world.(writer := Some(Writer(if stamped then Some(Before(world.receipt, StampOf(world), minting)) else None,
        |world.content|)),
             minted := world.minted + {minting})
    case Write(bytes, tag) => Changed(world, world.content + bytes, tag)
    case End(published) => (if published then Published(world, world.writer.value.receipt) else world).(writer := None)
    case Undo(tag) =>
      Changed(world, CutTo(world.content, world.writer.value.boundary), tag).(writer := None)
    case Crash => world.(writer := None)
    case Change(content, tag) => Changed(world, content, tag)
    case Forget => world.(receipt := None)
  }

  ghost predicate Follows(before: World, step: Step, after: World) {
    Enabled(before, step) && after == Taken(before, step)
  }

  ghost predicate IsRun(worlds: seq<World>, steps: seq<Step>) {
    && |worlds| == |steps| + 1
    && forall n :: 0 <= n < |steps| ==> Follows(worlds[n], steps[n], worlds[n + 1])
  }

  /** Whether an edit, where it falls inside a writer's lock, leaves what that writer began from. */
  predicate KeepsBoundary(world: World, step: Step) {
    step.Change? && world.writer.Some? ==>
      && world.writer.value.boundary <= |world.content|
      && world.content[..world.writer.value.boundary] <= step.content
  }

  // ---- what every step keeps ---------------------------------------------

  /** The receipt on disk was published over a state the file had, and a writer only carries an epoch on from one. */
  ghost predicate Honest(world: World) {
    && world.tag in world.seen
    && (world.receipt.Some? ==>
         && world.receipt.value.epoch in world.minted
         && world.receipt.value.stamp.tag in world.seen)
    && (world.writer.Some? ==> HonestWriter(world, world.writer.value))
  }

  ghost predicate HonestWriter(world: World, writer: Writer) {
    && writer.boundary <= |world.content|
    && (writer.receipt.Some? ==> writer.receipt.value.epoch in world.minted && writer.receipt.value.version == VERSION)
    && (ReadIn(world).Some? ==> writer.boundary == |world.content|)
  }

  /** Whatever vouches for `epoch` vouches for `content`. */
  ghost predicate Vouches(world: World, epoch: Epoch, content: seq<Byte>) {
    && epoch in world.minted
    && (ReadIn(world).Some? && world.receipt.value.epoch == epoch ==> content <= world.content)
    && (world.writer.Some? && world.writer.value.receipt.Some? && world.writer.value.receipt.value.epoch == epoch ==>
         world.writer.value.boundary <= |world.content| && content <= world.content[..world.writer.value.boundary])
  }

  lemma StepIsHonest(before: World, step: Step, after: World)
    requires Honest(before) && Follows(before, step, after) && KeepsBoundary(before, step)
    ensures Honest(after)
  {
  }

  lemma StepVouches(before: World, step: Step, after: World, epoch: Epoch, content: seq<Byte>)
    requires Honest(before) && Follows(before, step, after) && KeepsBoundary(before, step) &&
      Vouches(before, epoch, content)
    ensures Vouches(after, epoch, content)
  {
    if (step.Write? || step.Change?) && before.writer.Some? {
      var boundary := before.writer.value.boundary;
      assert after.content[..boundary] == before.content[..boundary];
    }
  }

  /** A run none of whose edits inside a writer's lock takes away what the writer began from. */
  ghost predicate IsGentle(worlds: seq<World>, steps: seq<Step>) {
    IsRun(worlds, steps) && forall n :: 0 <= n < |steps| ==> KeepsBoundary(worlds[n], steps[n])
  }

  lemma {:induction false} RunVouches(
    worlds: seq<World>, steps: seq<Step>, i: nat, j: nat, epoch: Epoch, content: seq<Byte>
  )
    requires IsGentle(worlds, steps) && i <= j < |worlds|
    requires Honest(worlds[i]) && Vouches(worlds[i], epoch, content)
    ensures Honest(worlds[j]) && Vouches(worlds[j], epoch, content)
  {
    if i < j {
      var last := j - 1;
      RunVouches(worlds, steps, i, last, epoch, content);
      assert Follows(worlds[last], steps[last], worlds[last + 1]) && KeepsBoundary(worlds[last], steps[last]);
      StepIsHonest(worlds[last], steps[last], worlds[j]);
      StepVouches(worlds[last], steps[last], worlds[j], epoch, content);
    }
  }

  lemma {:induction false} RunIsHonest(worlds: seq<World>, steps: seq<Step>, n: nat)
    requires IsGentle(worlds, steps) && n < |worlds| && Honest(worlds[0])
    ensures Honest(worlds[n])
  {
    if n > 0 {
      var last := n - 1;
      RunIsHonest(worlds, steps, last);
      assert Follows(worlds[last], steps[last], worlds[last + 1]) && KeepsBoundary(worlds[last], steps[last]);
      StepIsHonest(worlds[last], steps[last], worlds[n]);
    }
  }

  /**
   Through any appends, failed writes, crashes, edits, truncations and lost receipts, where
   an edit inside a writer's lock leaves what the writer began from: a receipt that continues
   an earlier one is read beside a file whose content the earlier one's begins.
   */
  lemma ContinuedIsAPrefix(worlds: seq<World>, steps: seq<Step>, i: nat, j: nat)
    requires IsGentle(worlds, steps) && Honest(worlds[0]) && i <= j < |worlds|
    requires ReadIn(worlds[i]).Some? && ReadIn(worlds[j]).Some?
    requires Continues(ReadIn(worlds[j]).value, ReadIn(worlds[i]).value)
    ensures worlds[i].content <= worlds[j].content
  {
    RunIsHonest(worlds, steps, i);
    var epoch, content := worlds[i].receipt.value.epoch, worlds[i].content;
    assert content[..|content|] == content;
    assert Vouches(worlds[i], epoch, content);
    RunVouches(worlds, steps, i, j, epoch, content);
  }

  // ---- and what keeps continuity -----------------------------------------

  /** A step of a stamping append that goes well. */
  predicate Appends(step: Step) {
    match step
    case Begin(stamped, _) => stamped
    case Write(_, _) => true
    case End(published) => published
    case _ => false
  }

  /** Whether the next receipt published will be of `epoch`, over at least `len` bytes. */
  ghost predicate Carries(world: World, epoch: Epoch, len: nat) {
    && |world.content| >= len
    && if world.writer.None? then ReadIn(world).Some? && world.receipt.value.epoch == epoch
       else world.writer.value.receipt.Some? && world.writer.value.receipt.value.epoch == epoch
  }

  /** Nothing but appends that go well is never taken for an edit: a reader between two of them is vouched for. */
  lemma {:induction false} AppendsContinue(worlds: seq<World>, steps: seq<Step>, i: nat, j: nat)
    requires IsRun(worlds, steps) && i <= j < |worlds| && Honest(worlds[i])
    requires worlds[i].writer.None? && ReadIn(worlds[i]).Some? && worlds[j].writer.None?
    requires forall n :: i <= n < j ==> Appends(steps[n])
    ensures ReadIn(worlds[j]).Some? && Continues(ReadIn(worlds[j]).value, ReadIn(worlds[i]).value)
  {
    AppendsCarry(worlds, steps, i, j, worlds[i].receipt.value.epoch, |worlds[i].content|);
  }

  lemma {:induction false} AppendsCarry(worlds: seq<World>, steps: seq<Step>, i: nat, j: nat, epoch: Epoch, len: nat)
    requires IsRun(worlds, steps) && i <= j < |worlds| && Honest(worlds[i])
    requires Carries(worlds[i], epoch, len)
    requires forall n :: i <= n < j ==> Appends(steps[n])
    ensures Honest(worlds[j]) && Carries(worlds[j], epoch, len)
  {
    if i < j {
      var last := j - 1;
      AppendsCarry(worlds, steps, i, last, epoch, len);
      assert Follows(worlds[last], steps[last], worlds[last + 1]) && Appends(steps[last]);
      StepIsHonest(worlds[last], steps[last], worlds[j]);
    }
  }

  /** What a reader meets past one append with an edit inside its lock: the worlds it goes through. */
  ghost predicate EditedAppend(
    held: World, begun: World, edited: World, written: World, ended: World, content: seq<Byte>, bytes: seq<Byte>
  ) {
    && (exists minting :: Follows(held, Begin(true, minting), begun))
    && (exists tag :: Follows(begun, Change(content, tag), edited))
    && (exists tag :: Follows(edited, Write(bytes, tag), written))
    && Follows(written, End(true), ended)
  }

  /**
   Exactly which edits inside the lock a receipt hides: whatever the edit, the receipt
   continues the one before it where the file is as long; and the content it is read beside
   begins with the earlier content exactly where the file as written does, which of an edit
   that shortens nothing is exactly an edit that keeps what the writer began from.
   */
  lemma EditInsideTheLock(
    held: World, begun: World, edited: World, written: World, ended: World, content: seq<Byte>, bytes: seq<Byte>
  )
    requires Honest(held) && ReadIn(held).Some? && EditedAppend(held, begun, edited, written, ended, content, bytes)
    ensures ReadIn(ended).Some? && ended.content == content + bytes
    ensures Continues(ReadIn(ended).value, ReadIn(held).value) <==> |content + bytes| >= |held.content|
    ensures |content| >= |held.content| ==>
              Continues(ReadIn(ended).value, ReadIn(held).value)
              && (held.content <= ended.content <==> KeepsBoundary(begun, Change(content, edited.tag)))
  {
    var minting :| Follows(held, Begin(true, minting), begun);
    var boundary := begun.writer.value.boundary;
    assert boundary == |held.content| && begun.content[..boundary] == held.content;
    assert |content| >= |held.content| ==> (content + bytes)[..|held.content|] == content[..|held.content|];
  }

  /** So an edit that swaps the journal's first byte inside the lock goes unseen. */
  lemma EditInsideTheLockIsUnseen(first: Byte, second: Byte, line: Byte) returns (worlds: seq<World>, steps: seq<Step>)
    requires first != second
    ensures IsRun(worlds, steps) && Honest(worlds[0]) && |steps| == 4
    ensures steps == [Begin(true, 1), Change([second], 2), Write([line], 3), End(true)]
    ensures ReadIn(worlds[0]).Some? && ReadIn(worlds[4]).Some?
    ensures Continues(ReadIn(worlds[4]).value, ReadIn(worlds[0]).value)
    ensures !(worlds[0].content <= worlds[4].content)
  {
    var held := World([first], 1, Some(Receipt(VERSION, 0, Stamp(1, 1))), None, {1}, {0});
    var begun := Taken(held, Begin(true, 1));
    var edited := Taken(begun, Change([second], 2));
    var written := Taken(edited, Write([line], 3));
    var ended := Taken(written, End(true));
    steps := [Begin(true, 1), Change([second], 2), Write([line], 3), End(true)];
    worlds := [held, begun, edited, written, ended];
    assert Follows(held, steps[0], begun) && Follows(begun, steps[1], edited);
    assert Follows(edited, steps[2], written) && Follows(written, steps[3], ended);
    EditInsideTheLock(held, begun, edited, written, ended, [second], [line]);
    assert ended.content[0] == second;
  }

  // ---- one locked append -------------------------------------------------

  /**
   What the host answers one append: whether the file's metadata reads, how far a write that fails
   gets and whether it can be undone, whether the receipt is written.
   */
  datatype Host = Host(stampedBefore: bool, stampedAfter: bool, failedAfter: Option<nat>, undoes: bool, publishes: bool)

  class JournalFile {
    var content: seq<Byte>
    var tag: Tag
    var receipt: Option<Receipt>
    ghost var seen: set<Tag>
    ghost var minted: set<Epoch>

    constructor (tag: Tag)
      ensures Now() == World([], tag, None, None, {tag}, {}) && Honest(Now())
    {
      this.content, this.tag, this.receipt := [], tag, None;
      this.seen, this.minted := {tag}, {};
    }

    /** The journal with no writer inside its lock. */
    ghost function Now(): World
      reads this
    {
      World(content, tag, receipt, None, seen, minted)
    }

    /**
     One record appended under the lock, or taken back off the file where its write fails
     and the host lets it: in every case a run of the steps above, so everything they keep is kept.
     */
    method WriteRecord(line: seq<Byte>, host: Host, minting: Epoch, written: Tag, restored: Tag)
      returns (ok: bool, ghost worlds: seq<World>, ghost steps: seq<Step>)
      requires minting !in minted && written !in seen && restored !in seen + {written}
      requires host.failedAfter.Some? ==> host.failedAfter.value <= |line|
      modifies this
      ensures ok <==> host.failedAfter.None?
      ensures content == if ok then old(content) + line
                         else if host.undoes then old(content)
                         else old(content) + line[..host.failedAfter.value]
      ensures IsGentle(worlds, steps) && worlds[0] == old(Now()) && worlds[|worlds| - 1] == Now()
      ensures ok && host.stampedBefore && host.stampedAfter && host.publishes ==> ReadIn(Now()).Some?
    {
      var boundary := |content|;
      var held := if host.stampedBefore then Some(Before(receipt, Stamp(boundary, tag), minting)) else None;
      steps := [Begin(host.stampedBefore, minting)];
      worlds := [Now(), Taken(Now(), steps[0])];
      minted := minted + {minting};

      var reached := if host.failedAfter.Some? then line[..host.failedAfter.value] else line;
      content, tag := content + reached, written;
      seen := seen + {written};
      steps := steps + [Write(reached, written)];
      worlds := worlds + [Taken(worlds[1], steps[1])];

      ok := host.failedAfter.None?;
      if ok {
        if held.Some? && host.stampedAfter && host.publishes {
          receipt := Some(held.value.(stamp := Stamp(|content|, tag)));
        }
        steps := steps + [End(host.stampedAfter && host.publishes)];
      } else if host.undoes {
        content, tag := content[..boundary], restored;
        seen := seen + {restored};
        steps := steps + [Undo(restored)];
      } else {
        steps := steps + [Crash];
      }
      worlds := worlds + [Taken(worlds[2], steps[2])];
    }
  }
}
