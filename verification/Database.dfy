/** Transactions and commits. Whatever mix of commits, stale aborts, rejections and failed appends happens, the stored
    frames rebuild the world that readers see, as long as no commit is based on another world than the current one.
    A linear store sees to that; a store that takes any frame has only the worlds' hashed identities to go by. */
module Database {
  import opened Words
  import opened Facts
  import opened Store
  import opened Commits
  import opened CommitFile
  import opened Worlds
  import C = Calls

  /** Every frame of a database's own history raises the version by one. */
  predicate Versioned(frames: seq<CommitFrame>) {
    forall i :: 0 <= i < |frames| ==> frames[i].resultingVersion == i + 1
  }

  class Transaction {
    const base: World
    var nextEntity: nat
    var operations: seq<Operation>

    /** The operations recorded so far apply to the base, and leave its allocator at `nextEntity`. */
    ghost predicate Valid()
      reads this
    {
      && Good(base)
      && var r := ApplyAll(Applied(base.machine, base.nextEntity), operations);
         r.Ok? && r.value.nextEntity == nextEntity
    }

    constructor (base: World)
      requires Good(base)
      ensures Valid() && this.base == base && operations == [] && nextEntity == base.nextEntity
    {
      this.base, nextEntity, operations := base, base.nextEntity, [];
    }

    method Record(op: Operation)
      requires Valid() && (op.AllocateEntity? ==> op.entity == nextEntity)
      modifies this
      ensures Valid() && operations == old(operations) + [op]
      ensures nextEntity == old(nextEntity) + if op.AllocateEntity? then 1 else 0
    {
      hide Inv;
      ghost var before := Applied(base.machine, base.nextEntity);
      ApplyIsReplay(before, operations);
      OneApplied(ApplyAll(before, operations).value, op);
      assert (operations + [op])[..|operations|] == operations;
      operations := operations + [op];
      if op.AllocateEntity? {
        nextEntity := nextEntity + 1;
      }
    }

    method NewEntity() returns (entity: nat)
      requires Valid()
      modifies this
      ensures Valid() && entity == old(nextEntity) && nextEntity == old(nextEntity) + 1
      ensures operations == old(operations) + [AllocateEntity(entity)]
    {
      entity := nextEntity;
      Record(AllocateEntity(entity));
    }

    method Define(slot: Name, fact: Fact)
      requires Valid()
      modifies this
      ensures Valid() && operations == old(operations) + [Operation.Define(slot, fact)] && nextEntity == old(nextEntity)
    {
      Record(Operation.Define(slot, fact));
    }

    method Forget(slot: Name)
      requires Valid()
      modifies this
      ensures Valid() && operations == old(operations) + [Operation.Forget(slot)] && nextEntity == old(nextEntity)
    {
      Record(Operation.Forget(slot));
    }

    /** The candidate the recorded operations stand for. */
    ghost function Proposed(): (c: CandidateWorld)
      requires Valid()
      reads this
      ensures FrameOf(c) == FrameOn(base, operations, nextEntity)
    {
      CandidateWorld(base.id, base.version, WorldIdOf(base.id, base.version + 1, nextEntity, operations), base.version + 1,
                     nextEntity, base.operationCount, operations,
                     ApplyAll(Applied(base.machine, base.nextEntity), operations).value.machine)
    }

    /** A transaction's own operations always make a candidate. */
    method Candidate() returns (r: Result<CandidateWorld, CandidateError>)
      requires Valid()
      ensures r == Ok(Proposed())
    {
      r := Construct(base, operations);
    }
  }

  /** A validator accepts a candidate or gives a reason against it. */
  type Validator = CandidateWorld -> Option<Name>

  function FirstRejection(validators: seq<Validator>, c: CandidateWorld): Option<Name> {
    if validators == [] then None
    else if validators[0](c).Some? then validators[0](c)
    else FirstRejection(validators[1..], c)
  }

  method Validate(validators: seq<Validator>, c: CandidateWorld) returns (rejection: Option<Name>)
    ensures rejection == FirstRejection(validators, c)
  {
    assert validators[0..] == validators;
    for i := 0 to |validators|
      invariant FirstRejection(validators[i..], c) == FirstRejection(validators, c)
    {
      assert validators[i..][1..] == validators[i + 1..];
      rejection := validators[i](c);
      if rejection.Some? {
        return;
      }
    }
    rejection := None;
  }

  /** Validator `i` is the first to reject the candidate, and gives this reason. */
  ghost predicate Rejects(validators: seq<Validator>, c: CandidateWorld, i: nat, reason: Name) {
    i < |validators| && validators[i](c) == Some(reason) && forall j :: 0 <= j < i ==> validators[j](c).None?
  }

  ghost predicate AllAccept(validators: seq<Validator>, c: CandidateWorld) {
    forall i :: 0 <= i < |validators| ==> validators[i](c).None?
  }

  lemma {:induction false} RejectionIsFirst(validators: seq<Validator>, c: CandidateWorld)
    ensures FirstRejection(validators, c).None? <==> AllAccept(validators, c)
    ensures FirstRejection(validators, c).Some? ==>
      exists i: nat :: Rejects(validators, c, i, FirstRejection(validators, c).value)
    decreases |validators|
  {
    if validators != [] {
      if validators[0](c).Some? {
        assert Rejects(validators, c, 0, validators[0](c).value);
      } else {
        RejectionIsFirst(validators[1..], c);
        assert AllAccept(validators, c) ==> AllAccept(validators[1..], c);
        if FirstRejection(validators, c).Some? {
          var reason := FirstRejection(validators, c).value;
          var i: nat :| Rejects(validators[1..], c, i, reason);
          assert forall j :: 0 < j <= i ==> validators[j] == validators[1..][j - 1];
          assert Rejects(validators, c, i + 1, reason);
        } else {
          assert forall j :: 0 < j < |validators| ==> validators[j] == validators[1..][j - 1];
        }
      }
    }
  }

  datatype CommitError =
    | StaleTransaction(basedOn: nat, current: nat)
    | Candidate(error: CandidateError)
    | Validation(reason: Name)
    | StoreFailed

  class Database {
    var current: World
    var store: seq<CommitFrame>
    var validators: seq<Validator>
    /** Whether the store refuses a frame that does not continue its last one, as the file stores do. */
    const linear: bool
    ghost var published: set<World>
    /** Whether some commit was based on another world than the then current one. */
    ghost var broken: bool

    /** The stored frames rebuild the current world, and every world ever published is one of their prefixes. */
    ghost predicate Sound()
      reads this
    {
      && Rebuild(store) == Ok(current) && Versioned(store)
      && forall w :: w in published ==> w.frames <= store && Rebuild(w.frames) == Ok(w)
    }

    /** Until it is broken the database is sound; from then on its frames rebuild no world at all. */
    ghost predicate Valid()
      reads this
    {
      && current in published && (forall w :: w in published ==> Good(w))
      && (linear ==> !broken)
      && if broken then Rebuild(store).Err? else Sound()
    }

    constructor (linear: bool, validators: seq<Validator>)
      ensures Valid() && !broken && store == [] && current == GENESIS_WORLD && published == {GENESIS_WORLD}
      ensures this.linear == linear && this.validators == validators
    {
      this.linear, this.validators := linear, validators;
      current, store, broken := GENESIS_WORLD, [], false;
      published := {GENESIS_WORLD};
      new;
      C.InitialIsSound();
    }

    /** Append to the store; `succeeds` is what the medium does. A failed append changes nothing. */
    method Append(frame: CommitFrame, succeeds: bool) returns (ok: bool)
      modifies this`store
      ensures ok <==> succeeds && (linear ==> Follows(old(store), frame))
      ensures store == if ok then old(store) + [frame] else old(store)
    {
      ok := succeeds && (!linear || Follows(store, frame));
      if ok {
        store := store + [frame];
      }
    }

    /** What a commit of a candidate comes to: stale, rejected, refused by the store, or published. */
    ghost function Verdict(t: Transaction, succeeds: bool): Option<CommitError>
      requires t.Valid()
      reads this, t
    {
      if t.base.id != current.id then Some(StaleTransaction(t.base.id, current.id))
      else match FirstRejection(validators, t.Proposed())
        case Some(reason) => Some(Validation(reason))
        case None => if succeeds && (linear ==> Follows(store, FrameOf(t.Proposed()))) then None else Some(StoreFailed)
    }

    /** A commit publishes its candidate on top of the current world, or changes nothing. A stale transaction whose
        base has the current world's identity is not noticed here: a linear store refuses its frame, any other store
        takes it, and from then on the stored frames do not rebuild. */
    method Commit(t: Transaction, succeeds: bool) returns (r: Result<World, CommitError>)
      requires Valid() && t.Valid() && t.base in published
      modifies this
      ensures Valid() && validators == old(validators) && published >= old(published)
      ensures match old(Verdict(t, succeeds))
        case Some(error) => r == Err(error) && store == old(store) && current == old(current)
        case None =>
          && r == Ok(current) && current in published
          && store == old(store) + [FrameOn(t.base, t.operations, t.nextEntity)]
          && current == IntoWorld(t.Proposed(), FrameOf(t.Proposed()), old(current.frames))
      ensures r.Ok? <==>
        && t.base.id == old(current.id) && AllAccept(old(validators), old(t.Proposed())) && succeeds
        && (linear ==> Follows(old(store), FrameOn(t.base, t.operations, t.nextEntity)))
      ensures r.Err? && r.error.StaleTransaction? <==> t.base.id != old(current.id)
      ensures r.Err? && r.error.Validation? ==> exists i: nat :: Rejects(old(validators), old(t.Proposed()), i, r.error.reason)
      ensures r.Err? && r.error.Validation? <==>
        t.base.id == old(current.id) && !AllAccept(old(validators), old(t.Proposed()))
      ensures broken <==> old(broken) || (r.Ok? && t.base != old(current))
      ensures r.Ok? && t.base != old(current) ==> !linear
      ensures r.Ok? && t.base != old(current) && !old(broken) ==>
        Rebuild(store) == Err(HistoryVersionMismatch(old(current.version), t.base.version))
      ensures linear && t.base == old(current) && t.base.version + 1 < U64 && succeeds ==> r.Ok? || r.error.Validation?
    {
      hide Inv, ApplyAll, WorldIdOf, Rebuild, FirstRejection, Good, Follows, Versioned, AllAccept, Rejects;
      RejectionIsFirst(validators, t.Proposed());
      if t.base.id != current.id {
        return Err(StaleTransaction(t.base.id, current.id));
      }
      var built := t.Candidate();
      var candidate := built.value;
      var rejection := Validate(validators, candidate);
      if rejection.Some? {
        return Err(Validation(rejection.value));
      }
      var frame := FrameOf(candidate);
      if !broken {
        OnlyTheTipContinues(store, current, t.base, frame);
        NextHistory(store, current, t, frame);
      } else {
        StaysBroken(store, frame);
      }
      var ok := Append(frame, succeeds);
      if !ok {
        return Err(StoreFailed);
      }
      PublishedIsInStep(t, frame, current.frames);
      assert forall w :: w in published && w.frames <= old(store) ==> w.frames <= store;
      broken := broken || t.base != current;
      current := IntoWorld(candidate, frame, current.frames);
      published := published + {current};
      r := Ok(current);
    }
  }

  lemma StaysBroken(frames: seq<CommitFrame>, frame: CommitFrame)
    requires Rebuild(frames).Err?
    ensures Rebuild(frames + [frame]).Err?
  {
    assert (frames + [frame])[..|frames|] == frames;
  }

  lemma PublishedIsInStep(t: Transaction, frame: CommitFrame, history: seq<CommitFrame>)
    requires t.Valid()
    ensures Good(IntoWorld(t.Proposed(), frame, history))
  {
    hide ApplyAll;
    ApplyIsReplay(Applied(t.base.machine, t.base.nextEntity), t.operations);
  }

  /** The frame of a published base, appended to a sound history: on the tip it is replayed to the candidate's world;
      on an older world with the tip's identity the replay stops at its version. */
  lemma NextHistory(frames: seq<CommitFrame>, tip: World, t: Transaction, frame: CommitFrame)
    requires t.Valid() && frame == FrameOf(t.Proposed()) && Versioned(frames) && Rebuild(frames) == Ok(tip)
    requires t.base.frames <= frames && Rebuild(t.base.frames) == Ok(t.base) && t.base.id == tip.id
    ensures t.base == tip ==>
      && Rebuild(frames + [frame]) == Ok(IntoWorld(t.Proposed(), frame, tip.frames)) && Versioned(frames + [frame])
      && IntoWorld(t.Proposed(), frame, tip.frames).frames == frames + [frame]
    ensures t.base != tip ==> Rebuild(frames + [frame]) == Err(HistoryVersionMismatch(tip.version, t.base.version))
  {
    hide Inv, ApplyAll, WorldIdOf, Rebuild;
    RebuiltTip(frames);
    VersionIsLength(frames);
    if t.base == tip {
      PublishedIsRebuilt(frames, tip, t.operations, Applied(t.Proposed().machine, t.nextEntity));
    } else {
      RebuiltTip(t.base.frames);
      VersionIsLength(t.base.frames);
      assert t.base.frames == frames[..|t.base.frames|] && frames[..|frames|] == frames;
      StopsAtVersion(frames, tip, frame);
    }
  }

  lemma StopsAtVersion(frames: seq<CommitFrame>, tip: World, frame: CommitFrame)
    requires Rebuild(frames) == Ok(tip) && frame.parentWorld == tip.id && frame.parentVersion != tip.version
    ensures Rebuild(frames + [frame]) == Err(HistoryVersionMismatch(tip.version, frame.parentVersion))
  {
    assert (frames + [frame])[..|frames|] == frames;
  }

  lemma RebuiltTip(frames: seq<CommitFrame>)
    requires Rebuild(frames).Ok?
    ensures var w := Rebuild(frames).value;
      w.frames == frames && w.id == TipWorld(frames) && w.version == TipVersion(frames)
  {
    RebuiltIsReplay(frames);
  }

  lemma VersionIsLength(frames: seq<CommitFrame>)
    requires Versioned(frames)
    ensures TipVersion(frames) == |frames|
  {
  }

  /** Among the published worlds only the current one has the version a linear store expects, so two worlds
      whose identities collide are still told apart. */
  lemma OnlyTheTipContinues(frames: seq<CommitFrame>, tip: World, base: World, frame: CommitFrame)
    requires Versioned(frames) && Rebuild(frames) == Ok(tip)
    requires base.frames <= frames && Rebuild(base.frames) == Ok(base)
    requires frame.parentWorld == base.id && frame.parentVersion == base.version
    requires frame.resultingVersion == base.version + 1
    ensures Follows(frames, frame) ==> base == tip
    ensures base == tip && tip.version + 1 < U64 ==> Follows(frames, frame)
  {
    hide Rebuild;
    RebuiltTip(frames);
    RebuiltTip(base.frames);
    assert base.frames == frames[..|base.frames|];
    VersionIsLength(frames);
    VersionIsLength(base.frames);
    if |base.frames| == |frames| {
      assert frames[..|frames|] == frames;
    }
  }

  // ---- Whole runs ----

  datatype Edit = NewEntity | Define(slot: Name, fact: Fact) | Forget(slot: Name)

  /** One client: take the snapshot published `age` commits ago, edit it, and commit; the medium may fail. */
  datatype Attempt = Attempt(age: nat, edits: seq<Edit>, succeeds: bool)

  method Prepare(base: World, edits: seq<Edit>) returns (t: Transaction)
    requires Good(base)
    ensures fresh(t) && t.Valid() && t.base == base && |t.operations| == |edits|
  {
    hide Good;
    t := new Transaction(base);
    for i := 0 to |edits|
      invariant t.Valid() && |t.operations| == i
    {
      match edits[i] {
        case NewEntity => var _ := t.NewEntity();
        case Define(slot, fact) => t.Define(slot, fact);
        case Forget(slot) => t.Forget(slot);
      }
    }
  }

  /** After any attempts against either kind of store, rebuilding from the stored frames succeeds exactly when every
      commit that went through was based on the world current at the time, and then gives the current world: identity,
      version, allocator and contents. A linear store always has it so. */
  method Session(linear: bool, validators: seq<Validator>, attempts: seq<Attempt>)
    returns (db: Database, rebuilt: Result<World, CandidateError>, tips: seq<World>, bases: seq<World>,
             results: seq<Result<World, CommitError>>)
    ensures |tips| == |bases| == |results| == |attempts|
    ensures rebuilt == Rebuild(db.store) && |db.store| <= |attempts|
    ensures rebuilt.Ok? <==> forall i :: 0 <= i < |results| && results[i].Ok? ==> bases[i] == tips[i]
    ensures rebuilt.Ok? ==>
      rebuilt == Ok(db.current) && db.current.frames == db.store && db.current.version == |db.store|
    ensures linear ==> rebuilt.Ok?
  {
    hide Rebuild, Good, Database.Verdict;
    db := new Database(linear, validators);
    var worlds := [db.current];
    tips, bases, results := [], [], [];
    for i := 0 to |attempts|
      invariant fresh(db) && db.Valid() && db.linear == linear && worlds != []
      invariant |db.store| <= i && |tips| == |bases| == |results| == i
      invariant db.broken <==> exists k :: 0 <= k < i && results[k].Ok? && bases[k] != tips[k]
      invariant forall w :: w in worlds ==> w in db.published
    {
      var attempt := attempts[i];
      var base := worlds[if attempt.age < |worlds| then |worlds| - 1 - attempt.age else 0];
      var t := Prepare(base, attempt.edits);
      tips, bases := tips + [db.current], bases + [base];
      ghost var before := results;
      var r := db.Commit(t, attempt.succeeds);
      results := results + [r];
      assert results[i] == r && forall k :: 0 <= k < i ==> results[k] == before[k];
      if r.Ok? {
        worlds := worlds + [r.value];
      }
    }
    rebuilt := Reconstruct(db.store);
    if !db.broken {
      RebuiltTip(db.store);
      VersionIsLength(db.store);
    }
  }

  // ---- Replay from a cached projection ----

  datatype ProjectionBase = ProjectionBase(machine: C.Machine, version: nat, nextEntity: nat)

  ghost predicate IsProjectionOf(base: ProjectionBase, frames: seq<CommitFrame>) {
    exists n :: 0 <= n <= |frames| && CachedAt(base, frames, n)
  }

  ghost predicate CachedAt(base: ProjectionBase, frames: seq<CommitFrame>, n: nat)
    requires n <= |frames|
  {
    && Rebuild(frames[..n]).Ok?
    && var w := Rebuild(frames[..n]).value;
       base == ProjectionBase(w.machine, w.version, w.nextEntity)
  }

  /** Collect the frames newer than the projection, newest first, along the history. */
  method PendingFrames(frames: seq<CommitFrame>, version: nat) returns (pending: seq<CommitFrame>)
    requires Versioned(frames) && version <= |frames|
    ensures |pending| == |frames| - version
    ensures forall i :: 0 <= i < |pending| ==> pending[i] == frames[|frames| - 1 - i]
  {
    pending := [];
    var cursor := |frames|;
    while cursor > 0
      invariant version <= cursor <= |frames| && |pending| == |frames| - cursor
      invariant forall i :: 0 <= i < |pending| ==> pending[i] == frames[|frames| - 1 - i]
    {
      var frame := frames[cursor - 1];
      if frame.resultingVersion <= version {
        break;
      }
      pending := pending + [frame];
      cursor := cursor - 1;
    }
  }

  /** Replaying only the frames behind a cached projection gives the same kernel as replaying all of them, and no
      operation fails. */
  method MaterializeKernel(frames: seq<CommitFrame>, projected: Option<ProjectionBase>) returns (machine: C.Machine)
    requires Versioned(frames) && Rebuild(frames).Ok?
    requires projected.Some? ==> IsProjectionOf(projected.value, frames)
    ensures machine == Rebuild(frames).value.machine
  {
    hide Inv, StepWorld, WorldIdOf;
    C.InitialIsSound();
    var base := if projected.Some? then projected.value else ProjectionBase(C.INITIAL, 0, 1);
    ghost var n: nat := 0;
    if projected.Some? {
      n :| 0 <= n <= |frames| && CachedAt(base, frames, n);
    } else {
      assert frames[..0] == [];
    }
    RebuiltTip(frames[..n]);
    VersionIsLength(frames[..n]);
    var pending := PendingFrames(frames, base.version);
    machine := base.machine;
    var nextEntity := base.nextEntity;
    for i := |pending| downto 0
      invariant 0 <= |frames| - i && Inv(machine.store)
      invariant Rebuild(frames[..|frames| - i]).Ok?
      invariant var w := Rebuild(frames[..|frames| - i]).value; w.machine == machine && w.nextEntity == nextEntity
    {
      var frame := pending[i];
      ghost var done := |frames| - i - 1;
      RebuildPrefix(frames, done + 1);
      assert frames[..done + 1][..done] == frames[..done];
      StepApplies(Rebuild(frames[..done]).value, frame);
      var applied := ApplyOperations(Applied(machine, nextEntity), frame.operations);
      machine, nextEntity := applied.value.machine, applied.value.nextEntity;
    }
    assert frames[..|frames|] == frames;
  }

  lemma StepApplies(w: World, frame: CommitFrame)
    requires Inv(w.machine.store) && StepWorld(w, frame).Ok?
    ensures ApplyAll(Applied(w.machine, w.nextEntity), frame.operations)
         == Ok(Applied(StepWorld(w, frame).value.machine, StepWorld(w, frame).value.nextEntity))
  {
  }
}
