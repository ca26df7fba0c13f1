/** Worlds: what replaying a history yields, how transactions extend it, and why the stored frames always
    rebuild the world readers see. */
module Worlds {
  import opened Words
  import opened Facts
  import opened Store
  import opened Commits
  import opened FrameCodec
  import opened CommitFile
  import C = Calls

  datatype CandidateError =
    | HistoryParentMismatch(expected: nat, actual: nat)
    | HistoryVersionMismatch(expected: nat, actual: nat)
    | AllocatorOperationMismatch(expected: nat, actual: nat)
    | AllocatorStateMismatch(expected: nat, actual: nat)
    | WorldIdentityMismatch(expected: nat, actual: nat)

  // ---- Applying operations ----

  /** A kernel, and the allocator the caller keeps beside the kernel's own. */
  datatype Applied = Applied(machine: C.Machine, nextEntity: nat)

  ghost predicate InStep(a: Applied) {
    Inv(a.machine.store) && a.nextEntity == a.machine.nextEntity
  }

  /** One operation drives the kernel with the call it stands for; only an allocation of the wrong entity fails. */
  function ApplyOperation(a: Applied, op: Operation): (r: Result<Applied, CandidateError>)
    requires Inv(a.machine.store)
    ensures r.Ok? <==> (op.AllocateEntity? ==> op.entity == a.nextEntity == a.machine.nextEntity)
    ensures r.Ok? ==> r.value.machine == C.After(a.machine, CallOf(op)) && Inv(r.value.machine.store)
    ensures r.Ok? ==> r.value.nextEntity == if op.AllocateEntity? then a.nextEntity + 1 else a.nextEntity
    ensures r.Err? ==> r.error.AllocatorOperationMismatch? && r.error.expected != r.error.actual
  {
    var called := C.After(a.machine, CallOf(op));
    match op
    case AllocateEntity(entity) =>
      if entity != a.nextEntity then Err(AllocatorOperationMismatch(a.nextEntity, entity))
      else if a.machine.nextEntity != entity then Err(AllocatorOperationMismatch(entity, a.machine.nextEntity))
      else Ok(Applied(called, a.nextEntity + 1))
    case Define(_, _) => Ok(Applied(called, a.nextEntity))
    case Forget(_) => Ok(Applied(called, a.nextEntity))
  }

  function ApplyAll(a: Applied, ops: seq<Operation>): (r: Result<Applied, CandidateError>)
    requires Inv(a.machine.store)
    ensures r.Ok? ==> Inv(r.value.machine.store)
    decreases |ops|
  {
    if ops == [] then Ok(a)
    else match ApplyAll(a, ops[..|ops| - 1])
      case Err(e) => Err(e)
      case Ok(b) => ApplyOperation(b, ops[|ops| - 1])
  }

  /** Applying keeps the two allocators in step and drives the kernel with the operations' calls. */
  lemma {:induction false} ApplyIsReplay(a: Applied, ops: seq<Operation>)
    requires InStep(a) && ApplyAll(a, ops).Ok?
    ensures InStep(ApplyAll(a, ops).value)
    ensures ApplyAll(a, ops).value.machine == C.AfterAll(a.machine, CallsOf(ops))
    decreases |ops|
  {
    hide Inv, ApplyOperation;
    if ops != [] {
      var before := ops[..|ops| - 1];
      ApplyIsReplay(a, before);
      assert CallsOf(ops)[..|ops| - 1] == CallsOf(before);
      OneApplied(ApplyAll(a, before).value, ops[|ops| - 1]);
    } else {
      assert CallsOf(ops) == [];
    }
  }

  lemma OneApplied(a: Applied, op: Operation)
    requires InStep(a)
    ensures ApplyOperation(a, op).Ok? <==> op.AllocateEntity? ==> op.entity == a.nextEntity
    ensures ApplyOperation(a, op).Ok? ==>
      InStep(ApplyOperation(a, op).value) && ApplyOperation(a, op).value.machine == C.After(a.machine, CallOf(op))
  {
  }

  lemma {:induction false} ApplyConcat(a: Applied, x: seq<Operation>, y: seq<Operation>)
    requires Inv(a.machine.store)
    ensures ApplyAll(a, x + y) == match ApplyAll(a, x) case Err(e) => Err(e) case Ok(b) => ApplyAll(b, y)
    decreases |y|
  {
    hide Inv, ApplyOperation;
    if y == [] {
      assert x + y == x;
    } else {
      assert (x + y)[..|x + y| - 1] == x + y[..|y| - 1];
      ApplyConcat(a, x, y[..|y| - 1]);
    }
  }

  method ApplyOperations(a: Applied, ops: seq<Operation>) returns (r: Result<Applied, CandidateError>)
    requires Inv(a.machine.store)
    ensures r == ApplyAll(a, ops)
  {
    hide Inv, ApplyOperation;
    var state := a;
    for i := 0 to |ops|
      invariant Inv(state.machine.store)
      invariant ApplyAll(a, ops[..i]) == Ok(state)
    {
      assert ops[..i + 1][..i] == ops[..i];
      var next := ApplyOperation(state, ops[i]);
      if next.Err? {
        ApplyConcat(a, ops[..i + 1], ops[i + 1..]);
        assert ops[..i + 1] + ops[i + 1..] == ops;
        return next;
      }
      state := next.value;
    }
    assert ops[..|ops|] == ops;
    r := Ok(state);
  }

  // ---- Worlds ----

  datatype World = World(id: nat, version: nat, nextEntity: nat, operationCount: nat, machine: C.Machine, frames: seq<CommitFrame>)

  const GENESIS_WORLD: World := World(GENESIS, 0, 1, 0, C.INITIAL, [])

  ghost predicate Good(w: World) {
    InStep(Applied(w.machine, w.nextEntity))
  }

  /** The identity of a world: the hash of its parent, its version, its allocator and its operations. */
  function WorldIdOf(parent: nat, version: nat, allocator: nat, ops: seq<Operation>): nat {
    Digest(EncodeU64(parent) + EncodeU64(version) + EncodeU64(allocator) + EncodeU64(|ops|) + EncodeOperations(ops))
  }

  function StepWorld(w: World, frame: CommitFrame): (r: Result<World, CandidateError>)
    requires Inv(w.machine.store)
    ensures r.Ok? ==> Inv(r.value.machine.store)
  {
    if frame.parentWorld != w.id then Err(HistoryParentMismatch(w.id, frame.parentWorld))
    else if frame.parentVersion != w.version then Err(HistoryVersionMismatch(w.version, frame.parentVersion))
    else match ApplyAll(Applied(w.machine, w.nextEntity), frame.operations)
      case Err(e) => Err(e)
      case Ok(a) =>
        if a.nextEntity != frame.resultingAllocator then Err(AllocatorStateMismatch(frame.resultingAllocator, a.nextEntity))
        else
          var id := WorldIdOf(frame.parentWorld, frame.resultingVersion, frame.resultingAllocator, frame.operations);
          if id != frame.resultingWorld then Err(WorldIdentityMismatch(id, frame.resultingWorld))
          else Ok(World(frame.resultingWorld, frame.resultingVersion, frame.resultingAllocator,
                        w.operationCount + |frame.operations|, a.machine, w.frames + [frame]))
  }

  /** The world a history stands for. */
  function Rebuild(frames: seq<CommitFrame>): (r: Result<World, CandidateError>)
    ensures r.Ok? ==> Inv(r.value.machine.store)
    decreases |frames|
  {
    if frames == [] then
      C.InitialIsSound();
      Ok(GENESIS_WORLD)
    else match Rebuild(frames[..|frames| - 1])
      case Err(e) => Err(e)
      case Ok(w) => StepWorld(w, frames[|frames| - 1])
  }

  lemma {:induction false} RebuildPrefix(frames: seq<CommitFrame>, n: nat)
    requires n <= |frames| && Rebuild(frames).Ok?
    ensures Rebuild(frames[..n]).Ok?
    decreases |frames|
  {
    if n == |frames| {
      assert frames[..n] == frames;
    } else {
      RebuildPrefix(frames[..|frames| - 1], n);
      assert frames[..|frames| - 1][..n] == frames[..n];
    }
  }

  lemma {:induction false} FirstError(frames: seq<CommitFrame>, n: nat)
    requires n <= |frames| && Rebuild(frames[..n]).Err?
    ensures Rebuild(frames) == Rebuild(frames[..n])
    decreases |frames|
  {
    if n == |frames| {
      assert frames[..n] == frames;
    } else {
      assert frames[..|frames| - 1][..n] == frames[..n];
      FirstError(frames[..|frames| - 1], n);
    }
  }

  lemma StepKeepsGood(w: World, frame: CommitFrame)
    requires Good(w) && StepWorld(w, frame).Ok?
    ensures Good(StepWorld(w, frame).value)
    ensures var next := StepWorld(w, frame).value;
      next.frames == w.frames + [frame] && next.id == frame.resultingWorld && next.version == frame.resultingVersion
    ensures StepWorld(w, frame).value.machine == C.AfterAll(w.machine, CallsOf(frame.operations))
  {
    hide Inv, WorldIdOf;
    ApplyIsReplay(Applied(w.machine, w.nextEntity), frame.operations);
  }

  lemma {:induction false} CallsConcat(m: C.Machine, x: seq<C.Call>, y: seq<C.Call>)
    requires Inv(m.store)
    ensures C.AfterAll(m, x + y) == C.AfterAll(C.AfterAll(m, x), y)
    decreases |y|
  {
    hide Inv, C.After;
    if y == [] {
      assert x + y == x;
    } else {
      assert (x + y)[..|x + y| - 1] == x + y[..|y| - 1];
      CallsConcat(m, x, y[..|y| - 1]);
    }
  }

  /** A rebuilt world holds exactly its frames, and its kernel is the kernel that made their calls. */
  lemma {:induction false} RebuiltIsReplay(frames: seq<CommitFrame>)
    requires Rebuild(frames).Ok?
    ensures Inv(C.INITIAL.store)
    ensures var w := Rebuild(frames).value;
      && Good(w) && w.frames == frames && w.id == TipWorld(frames) && w.version == TipVersion(frames)
      && w.machine == C.AfterAll(C.INITIAL, CallsOf(Flatten(frames)))
    decreases |frames|
  {
    hide Inv, StepWorld, C.AfterAll, Flatten, CallsOf;
    C.InitialIsSound();
    if frames == [] {
      FlattenNothing();
      NoCalls(C.INITIAL);
    } else {
      var before, frame := frames[..|frames| - 1], frames[|frames| - 1];
      RebuiltIsReplay(before);
      StepKeepsGood(Rebuild(before).value, frame);
      assert before + [frame] == frames;
      CallsConcat(C.INITIAL, CallsOf(Flatten(before)), CallsOf(frame.operations));
      FlattenMore(before, frame);
    }
  }

  lemma FlattenNothing()
    ensures CallsOf(Flatten([])) == []
  {
  }

  lemma FlattenMore(before: seq<CommitFrame>, frame: CommitFrame)
    ensures CallsOf(Flatten(before + [frame])) == CallsOf(Flatten(before)) + CallsOf(frame.operations)
  {
    hide CallOf;
    assert (before + [frame])[..|before|] == before;
  }

  lemma NoCalls(m: C.Machine)
    requires Inv(m.store)
    ensures C.AfterAll(m, []) == m
  {
  }

  method Reconstruct(frames: seq<CommitFrame>) returns (r: Result<World, CandidateError>)
    ensures r == Rebuild(frames)
  {
    hide Inv, ApplyAll, WorldIdOf;
    C.InitialIsSound();
    var world := GENESIS_WORLD;
    for i := 0 to |frames|
      invariant Inv(world.machine.store)
      invariant Rebuild(frames[..i]) == Ok(world)
    {
      assert frames[..i + 1][..i] == frames[..i];
      var frame := frames[i];
      if frame.parentWorld != world.id {
        FirstError(frames, i + 1);
        return Err(HistoryParentMismatch(world.id, frame.parentWorld));
      }
      if frame.parentVersion != world.version {
        FirstError(frames, i + 1);
        return Err(HistoryVersionMismatch(world.version, frame.parentVersion));
      }
      var applied := ApplyOperations(Applied(world.machine, world.nextEntity), frame.operations);
      if applied.Err? {
        FirstError(frames, i + 1);
        return Err(applied.error);
      }
      if applied.value.nextEntity != frame.resultingAllocator {
        FirstError(frames, i + 1);
        return Err(AllocatorStateMismatch(frame.resultingAllocator, applied.value.nextEntity));
      }
      var id := WorldIdOf(frame.parentWorld, frame.resultingVersion, frame.resultingAllocator, frame.operations);
      if id != frame.resultingWorld {
        FirstError(frames, i + 1);
        return Err(WorldIdentityMismatch(id, frame.resultingWorld));
      }
      world := World(frame.resultingWorld, frame.resultingVersion, frame.resultingAllocator,
                     world.operationCount + |frame.operations|, applied.value.machine, world.frames + [frame]);
    }
    assert frames[..|frames|] == frames;
    r := Ok(world);
  }

  // ---- Candidates ----

  datatype CandidateWorld = CandidateWorld(baseWorld: nat, baseVersion: nat, id: nat, version: nat, nextEntity: nat,
                                           baseOperationCount: nat, operations: seq<Operation>, machine: C.Machine)

  /** The frame of the operations that lead from a base world to an allocator. */
  function FrameOn(base: World, ops: seq<Operation>, nextEntity: nat): CommitFrame {
    CommitFrame(base.id, WorldIdOf(base.id, base.version + 1, nextEntity, ops), base.version, base.version + 1, nextEntity, ops)
  }

  method Construct(base: World, ops: seq<Operation>) returns (r: Result<CandidateWorld, CandidateError>)
    requires Good(base)
    ensures match ApplyAll(Applied(base.machine, base.nextEntity), ops)
      case Err(e) => r == Err(e)
      case Ok(a) =>
        r == Ok(CandidateWorld(base.id, base.version, WorldIdOf(base.id, base.version + 1, a.nextEntity, ops),
                               base.version + 1, a.nextEntity, base.operationCount, ops, a.machine))
  {
    var applied := ApplyOperations(Applied(base.machine, base.nextEntity), ops);
    match applied {
      case Err(e) => r := Err(e);
      case Ok(a) =>
        var version := base.version + 1;
        var id := WorldIdOf(base.id, version, a.nextEntity, ops);
        r := Ok(CandidateWorld(base.id, base.version, id, version, a.nextEntity, base.operationCount, ops, a.machine));
    }
  }

  function FrameOf(c: CandidateWorld): CommitFrame {
    CommitFrame(c.baseWorld, c.id, c.baseVersion, c.version, c.nextEntity, c.operations)
  }

  function IntoWorld(c: CandidateWorld, frame: CommitFrame, history: seq<CommitFrame>): World {
    World(c.id, c.version, c.nextEntity, c.baseOperationCount + |c.operations|, c.machine, history + [frame])
  }

  /** Publishing a candidate of the current world keeps stored frames and world together: replaying the longer
      history gives exactly the published world, whatever its hash. */
  lemma PublishedIsRebuilt(frames: seq<CommitFrame>, base: World, ops: seq<Operation>, a: Applied)
    requires Rebuild(frames) == Ok(base) && base.frames == frames
    requires ApplyAll(Applied(base.machine, base.nextEntity), ops) == Ok(a)
    ensures var frame := FrameOn(base, ops, a.nextEntity);
      && ContinuesWorld(base, frame)
      && Rebuild(frames + [frame])
         == Ok(World(frame.resultingWorld, base.version + 1, a.nextEntity, base.operationCount + |ops|, a.machine, frames + [frame]))
  {
    hide Inv, ApplyAll, WorldIdOf;
    var frame := FrameOn(base, ops, a.nextEntity);
    assert (frames + [frame])[..|frames|] == frames;
  }

  predicate ContinuesWorld(w: World, frame: CommitFrame) {
    frame.parentWorld == w.id && frame.parentVersion == w.version && frame.resultingVersion == w.version + 1
  }
}
