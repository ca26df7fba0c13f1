/** Which histories rebuild, said on the frames alone: the chain of identities and versions, and allocations that count
    up from one through the whole history. */
module WorldLaws {
  import opened Words
  import opened Facts
  import opened Store
  import opened Commits
  import opened CommitFile
  import opened Worlds
  import C = Calls

  /** How many entities the operations allocate. */
  function Allocations(ops: seq<Operation>): nat {
    if ops == [] then 0 else Allocations(ops[..|ops| - 1]) + if ops[|ops| - 1].AllocateEntity? then 1 else 0
  }

  /** Every allocation is of the entity whose number is next, when `next` is the first. */
  ghost predicate InSequence(next: nat, ops: seq<Operation>) {
    forall i :: 0 <= i < |ops| && ops[i].AllocateEntity? ==> ops[i].entity == next + Allocations(ops[..i])
  }

  lemma SequenceMore(next: nat, ops: seq<Operation>)
    requires ops != []
    ensures var front, last := ops[..|ops| - 1], ops[|ops| - 1];
      InSequence(next, ops) <==> InSequence(next, front) && (last.AllocateEntity? ==> last.entity == next + Allocations(front))
  {
    hide Allocations;
    var front := ops[..|ops| - 1];
    if InSequence(next, front) && (ops[|ops| - 1].AllocateEntity? ==> ops[|ops| - 1].entity == next + Allocations(front)) {
      forall i | 0 <= i < |ops| && ops[i].AllocateEntity? ensures ops[i].entity == next + Allocations(ops[..i]) {
        if i < |front| {
          assert front[i] == ops[i] && front[..i] == ops[..i];
        }
      }
    }
    if InSequence(next, ops) {
      forall i | 0 <= i < |front| && front[i].AllocateEntity? ensures front[i].entity == next + Allocations(front[..i]) {
        assert front[i] == ops[i] && front[..i] == ops[..i];
      }
    }
  }

  /** Operations apply exactly when their allocations are in sequence; the allocator moves by their number. */
  lemma {:induction false} AppliesExactly(a: Applied, ops: seq<Operation>)
    requires InStep(a)
    ensures ApplyAll(a, ops).Ok? <==> InSequence(a.nextEntity, ops)
    ensures ApplyAll(a, ops).Ok? ==>
      InStep(ApplyAll(a, ops).value) && ApplyAll(a, ops).value.nextEntity == a.nextEntity + Allocations(ops)
    decreases |ops|
  {
    hide Inv, ApplyOperation, InSequence;
    if ops == [] {
      assert InSequence(a.nextEntity, ops) by { NothingInSequence(a.nextEntity); }
    } else {
      var front := ops[..|ops| - 1];
      AppliesExactly(a, front);
      SequenceMore(a.nextEntity, ops);
      if ApplyAll(a, front).Ok? {
        OneApplied(ApplyAll(a, front).value, ops[|ops| - 1]);
        AllocatorAfter(ApplyAll(a, front).value, ops[|ops| - 1]);
      }
    }
  }

  lemma NothingInSequence(next: nat)
    ensures InSequence(next, [])
  {
  }

  lemma AllocatorAfter(a: Applied, op: Operation)
    requires InStep(a)
    ensures ApplyOperation(a, op).Ok? ==>
      ApplyOperation(a, op).value.nextEntity == a.nextEntity + if op.AllocateEntity? then 1 else 0
  {
    hide Inv, C.After;
  }

  /** The allocation at which applying stops is the first that is out of sequence, and the error names both numbers. */
  lemma {:induction false} MisnumberedExactly(a: Applied, ops: seq<Operation>, i: nat)
    requires InStep(a) && i < |ops| && InSequence(a.nextEntity, ops[..i])
    requires ops[i].AllocateEntity? && ops[i].entity != a.nextEntity + Allocations(ops[..i])
    ensures ApplyAll(a, ops) == Err(AllocatorOperationMismatch(a.nextEntity + Allocations(ops[..i]), ops[i].entity))
    decreases |ops|
  {
    hide Inv, InSequence, Allocations;
    var front := ops[..|ops| - 1];
    if i == |front| {
      AppliesExactly(a, front);
      assert ops[..i] == front;
    } else {
      assert front[..i] == ops[..i];
      MisnumberedExactly(a, front, i);
    }
  }

  // ---- Histories ----

  /** The identity that a frame's world must have on this parent. */
  function Identity(frame: CommitFrame): nat {
    WorldIdOf(frame.parentWorld, frame.resultingVersion, frame.resultingAllocator, frame.operations)
  }

  /** Frame `i` continues the frames before it. The version that it results in is not compared with anything. */
  ghost predicate FitsAt(frames: seq<CommitFrame>, i: nat)
    requires i < |frames|
  {
    var before, frame := frames[..i], frames[i];
    var next := 1 + Allocations(Flatten(before));
    && frame.parentWorld == TipWorld(before) && frame.parentVersion == TipVersion(before)
    && InSequence(next, frame.operations) && frame.resultingAllocator == next + Allocations(frame.operations)
    && frame.resultingWorld == Identity(frame)
  }

  ghost predicate Chained(frames: seq<CommitFrame>) {
    forall i :: 0 <= i < |frames| ==> FitsAt(frames, i)
  }

  lemma ChainedMore(frames: seq<CommitFrame>)
    requires frames != []
    ensures Chained(frames) <==> Chained(frames[..|frames| - 1]) && FitsAt(frames, |frames| - 1)
  {
    hide InSequence, Allocations, Flatten, WorldIdOf, TipWorld, TipVersion;
    var front := frames[..|frames| - 1];
    forall i | 0 <= i < |front| ensures FitsAt(front, i) <==> FitsAt(frames, i) {
      assert front[..i] == frames[..i] && front[i] == frames[i];
    }
  }

  /** One frame on a world is taken exactly when it names the world, and its allocations, its allocator and its
      identity are right. */
  lemma StepsExactly(w: World, frame: CommitFrame)
    requires Good(w)
    ensures StepWorld(w, frame).Ok? <==>
      && frame.parentWorld == w.id && frame.parentVersion == w.version && InSequence(w.nextEntity, frame.operations)
      && frame.resultingAllocator == w.nextEntity + Allocations(frame.operations)
      && frame.resultingWorld == Identity(frame)
    ensures StepWorld(w, frame).Ok? ==> StepWorld(w, frame).value.nextEntity == frame.resultingAllocator
  {
    AppliesExactly(Applied(w.machine, w.nextEntity), frame.operations);
    hide Inv, ApplyAll, InSequence, Allocations, WorldIdOf;
  }

  lemma {:induction false} AllocationsConcat(a: seq<Operation>, b: seq<Operation>)
    ensures Allocations(a + b) == Allocations(a) + Allocations(b)
    decreases |b|
  {
    if b == [] {
      assert a + b == a;
    } else {
      assert (a + b)[..|a + b| - 1] == a + b[..|b| - 1];
      AllocationsConcat(a, b[..|b| - 1]);
    }
  }

  /** A history rebuilds exactly when each of its frames continues the frames before it, and the world then has
      allocated what all its operations allocate. */
  lemma {:induction false} RebuildsExactly(frames: seq<CommitFrame>)
    ensures Rebuild(frames).Ok? <==> Chained(frames)
    ensures Rebuild(frames).Ok? ==> Rebuild(frames).value.nextEntity == 1 + Allocations(Flatten(frames))
    decreases |frames|
  {
    hide Inv, StepWorld, InSequence, Allocations, Chained, Identity, TipWorld, TipVersion;
    if frames == [] {
      assert Chained(frames) by { NothingChained(); }
      assert Allocations(Flatten(frames)) == 0 by { NothingAllocated(); }
    } else {
      var front := frames[..|frames| - 1];
      RebuildsExactly(front);
      ChainedMore(frames);
      if Rebuild(front).Ok? {
        RebuiltIsReplay(front);
        StepsExactly(Rebuild(front).value, frames[|frames| - 1]);
        AllocationsConcat(Flatten(front), frames[|frames| - 1].operations);
      }
    }
  }

  lemma NothingChained()
    ensures Chained([])
  {
  }

  lemma NothingAllocated()
    ensures Allocations(Flatten([])) == 0
  {
  }

  /** The error of the first allocation out of sequence. */
  ghost function MisnumberedIn(next: nat, ops: seq<Operation>): CandidateError
    requires !InSequence(next, ops)
  {
    var i := FirstMisnumbered(next, ops);
    AllocatorOperationMismatch(next + Allocations(ops[..i]), ops[i].entity)
  }

  ghost function FirstMisnumbered(next: nat, ops: seq<Operation>): (i: nat)
    requires !InSequence(next, ops)
    ensures i < |ops| && ops[i].AllocateEntity? && ops[i].entity != next + Allocations(ops[..i]) && InSequence(next, ops[..i])
    decreases |ops|
  {
    SequenceMore(next, ops);
    var front := ops[..|ops| - 1];
    if InSequence(next, front) then |front|
    else
      var i := FirstMisnumbered(next, front);
      assert front[..i] == ops[..i] && front[i] == ops[i];
      i
  }

  lemma MisnumberedIsError(a: Applied, ops: seq<Operation>)
    requires InStep(a) && !InSequence(a.nextEntity, ops)
    ensures ApplyAll(a, ops) == Err(MisnumberedIn(a.nextEntity, ops))
  {
    hide Inv, InSequence, Allocations, ApplyAll;
    MisnumberedExactly(a, ops, FirstMisnumbered(a.nextEntity, ops));
  }

  /** What is wrong with a frame behind this tip, looked at in this order: parent, version, an allocation out of
      sequence, the resulting allocator, the identity. */
  ghost function Misfit(id: nat, version: nat, next: nat, frame: CommitFrame): CandidateError {
    if frame.parentWorld != id then HistoryParentMismatch(id, frame.parentWorld)
    else if frame.parentVersion != version then HistoryVersionMismatch(version, frame.parentVersion)
    else if !InSequence(next, frame.operations) then MisnumberedIn(next, frame.operations)
    else if frame.resultingAllocator != next + Allocations(frame.operations) then
      AllocatorStateMismatch(frame.resultingAllocator, next + Allocations(frame.operations))
    else WorldIdentityMismatch(Identity(frame), frame.resultingWorld)
  }

  lemma StepMisfit(w: World, frame: CommitFrame)
    requires Good(w) && StepWorld(w, frame).Err?
    ensures StepWorld(w, frame) == Err(Misfit(w.id, w.version, w.nextEntity, frame))
  {
    hide Inv, InSequence, Allocations, WorldIdOf, MisnumberedIn, ApplyAll;
    var a := Applied(w.machine, w.nextEntity);
    AppliesExactly(a, frame.operations);
    if !InSequence(w.nextEntity, frame.operations) {
      MisnumberedIsError(a, frame.operations);
    }
  }

  /** The first frame that does not fit decides the error. */
  lemma FirstMisfitDecides(frames: seq<CommitFrame>, i: nat)
    requires i < |frames| && Chained(frames[..i]) && !FitsAt(frames, i)
    ensures var before := frames[..i];
      Rebuild(frames) == Err(Misfit(TipWorld(before), TipVersion(before), 1 + Allocations(Flatten(before)), frames[i]))
  {
    hide Inv, StepWorld, InSequence, Allocations, Flatten, Identity, TipWorld, TipVersion, Chained, Misfit;
    var before, frame := frames[..i], frames[i];
    RebuildsExactly(before);
    RebuiltIsReplay(before);
    StepsExactly(Rebuild(before).value, frame);
    StepMisfit(Rebuild(before).value, frame);
    assert frames[..i + 1][..i] == before && frames[..i + 1][i] == frame;
    FirstError(frames, i + 1);
  }
}
