/** The epoch store: whole groups of frames become durable or leave no trace, over a file that may fail at any
    call. A store that cannot prove its file intact stops for good. */
module EpochStore {
  import opened Words
  import opened Facts
  import opened Commits
  import opened Framing
  import opened FrameCodec
  import opened CommitFile
  import opened Worlds
  import opened FaultyFile

  datatype Phase = EpochStart | EpochWrite | EpochSync | RepairTruncate | RepairSync | VerifyLength | VerifyRead

  datatype StoreState = Healthy | Repairing | Poisoned

  datatype SyncPolicy = PerFrame | PerEpoch | WholeEpochTransport

  datatype EpochError =
    | NonLinearAppend
    | FrameTooLarge
    | Io(phase: Phase)
    | EpochRepaired(phase: Phase)
    | RepairFailed(primary: Phase, repair: Phase)
    | StorePoisoned
    | Unreadable

  datatype Checkpoint = Checkpoint(startOffset: nat, frameCount: nat, worldId: nat, worldVersion: nat, prefixDigest: nat)

  datatype PreparedEpoch = PreparedEpoch(checkpoint: Checkpoint, frames: seq<CommitFrame>, records: seq<seq<byte>>)

  ghost predicate InRange(frames: seq<CommitFrame>) {
    forall i :: 0 <= i < |frames| ==> Storable(frames[i])
  }

  /** The new frames continue the old ones, one after the other. */
  ghost predicate Continues(frames: seq<CommitFrame>, epoch: seq<CommitFrame>) {
    forall i :: 0 <= i < |epoch| ==> Follows(frames + epoch[..i], epoch[i])
  }

  ghost predicate Fits(epoch: seq<CommitFrame>) {
    forall i :: 0 <= i < |epoch| ==> |EncodePayload(epoch[i])| <= MAX_PAYLOAD
  }

  /** The stored frames would open again: within the decoder's limit, and replayable. */
  ghost predicate Reopens(frames: seq<CommitFrame>) {
    Decodable(frames) && Rebuild(frames).Ok?
  }

  /** The four calls of a repair that starts at call `k` all succeed. */
  ghost predicate RepairRuns(schedule: nat -> Outcome, k: nat) {
    schedule(k).ok && schedule(k + 1).ok && schedule(k + 2).ok && schedule(k + 3).ok
  }

  /** What a repair that starts at call `k` reports, and the number of the call after its last one. */
  ghost function RepairOutcome(schedule: nat -> Outcome, k: nat, reopens: bool): (Option<Phase>, nat) {
    if !schedule(k).ok then (Some(RepairTruncate), k + 1)
    else if !schedule(k + 1).ok then (Some(RepairSync), k + 2)
    else if !schedule(k + 2).ok then (Some(VerifyLength), k + 3)
    else if !schedule(k + 3).ok || !reopens then (Some(VerifyRead), k + 4)
    else (None, k + 4)
  }

  /** What a caller can learn about a store, and how far its file's schedule has run. */
  datatype StoreView = StoreView(frames: seq<CommitFrame>, state: StoreState, calls: nat)

  ghost function WriteView(schedule: nat -> Outcome, k: nat, n: nat): (Option<Phase>, nat) {
    var (ok, next) := WriteRuns(schedule, k, n);
    (if ok then None else Some(EpochWrite), next)
  }

  ghost function SyncView(schedule: nat -> Outcome, written: (Option<Phase>, nat)): (Option<Phase>, nat) {
    if written.0.Some? then written
    else (if schedule(written.1).ok then None else Some(EpochSync), written.1 + 1)
  }

  ghost function PerFrameView(schedule: nat -> Outcome, k: nat, records: seq<seq<byte>>): (Option<Phase>, nat)
    decreases |records|
  {
    if records == [] then (None, k)
    else
      var synced := SyncView(schedule, WriteView(schedule, k, |records[0]|));
      if synced.0.Some? then synced else PerFrameView(schedule, synced.1, records[1..])
  }

  /** How persisting an epoch's records ends under each policy. */
  ghost function PersistView(policy: SyncPolicy, schedule: nat -> Outcome, k: nat,
                             records: seq<seq<byte>>): (Option<Phase>, nat) {
    match policy
    case PerFrame => PerFrameView(schedule, k, records)
    case PerEpoch => SyncView(schedule, WriteView(schedule, k, |Arena(records)|))
    case WholeEpochTransport => (if schedule(k).ok then None else Some(EpochWrite), k + 1)
  }

  /** The whole effect of appending an epoch, as a function of the policy and the schedule alone. */
  ghost function AppendView(policy: SyncPolicy, schedule: nat -> Outcome, v: StoreView, epoch: seq<CommitFrame>)
    : (Result<(), EpochError>, StoreView)
  {
    if v.state != Healthy then (Err(StorePoisoned), v)
    else if epoch == [] then (Ok(()), v)
    else if !Continues(v.frames, epoch) then (Err(NonLinearAppend), v)
    else if !Fits(epoch) then (Err(FrameTooLarge), v)
    else if !schedule(v.calls).ok then (Err(Io(EpochStart)), v.(calls := v.calls + 1))
    else
      var (failure, calls) := PersistView(policy, schedule, v.calls + 1, RecordsFor(epoch));
      FinishView(schedule, v.(calls := calls), epoch, failure)
  }

  ghost function FinishView(schedule: nat -> Outcome, v: StoreView, epoch: seq<CommitFrame>, failure: Option<Phase>)
    : (Result<(), EpochError>, StoreView)
  {
    if failure.None? then (Ok(()), v.(frames := v.frames + epoch))
    else match RepairOutcome(schedule, v.calls, Reopens(v.frames))
      case (None, calls) => (Err(EpochRepaired(failure.value)), v.(calls := calls))
      case (Some(phase), calls) => (Err(RepairFailed(failure.value, phase)), v.(state := Poisoned, calls := calls))
  }

  /** A failed epoch is undone exactly when the four calls behind its last one succeed and the old frames reopen. */
  lemma RepairedExactly(policy: SyncPolicy, schedule: nat -> Outcome, v: StoreView, epoch: seq<CommitFrame>)
    requires v.state == Healthy && epoch != [] && Continues(v.frames, epoch) && Fits(epoch) && schedule(v.calls).ok
    ensures var (failure, calls) := PersistView(policy, schedule, v.calls + 1, RecordsFor(epoch));
      var (r, after) := AppendView(policy, schedule, v, epoch);
      && (r.Ok? <==> failure.None?) && after.frames == (if r.Ok? then v.frames + epoch else v.frames)
      && (failure.Some? ==> (r == Err(EpochRepaired(failure.value)) <==> RepairRuns(schedule, calls) && Reopens(v.frames)))
      && (after.state == Healthy <==> r.Ok? || r.error.EpochRepaired?)
  {
    hide PersistView, Continues, Fits, Reopens, RecordsFor;
  }

  function RecordsFor(epoch: seq<CommitFrame>): (r: seq<seq<byte>>)
    ensures |r| == |epoch| && forall i :: 0 <= i < |r| ==> r[i] == Record(FRAME_MAGIC, EncodePayload(epoch[i]))
  {
    seq(|epoch|, i requires 0 <= i < |epoch| => Record(FRAME_MAGIC, EncodePayload(epoch[i])))
  }

  function Arena(records: seq<seq<byte>>): seq<byte> {
    if records == [] then [] else records[0] + Arena(records[1..])
  }

  lemma {:induction false} ArenaIsRecords(epoch: seq<CommitFrame>)
    ensures Arena(RecordsFor(epoch)) == Records(FRAME_MAGIC, Payloads(epoch))
    decreases |epoch|
  {
    hide EncodePayload, Record;
    if epoch != [] {
      ArenaIsRecords(epoch[1..]);
      assert RecordsFor(epoch)[1..] == RecordsFor(epoch[1..]);
      assert Payloads(epoch)[1..] == Payloads(epoch[1..]);
    }
  }

  lemma StoredConcat(frames: seq<CommitFrame>, epoch: seq<CommitFrame>)
    requires Stored(frames) && Continues(frames, epoch) && InRange(epoch) && Fits(epoch)
    ensures Stored(frames + epoch)
  {
    hide Storable, EncodePayload, Follows;
    var all := frames + epoch;
    forall i | 0 <= i < |all| ensures Follows(all[..i], all[i]) && Storable(all[i]) && |EncodePayload(all[i])| <= MAX_PAYLOAD {
      if i < |frames| {
        assert all[..i] == frames[..i] && Follows(frames[..i], frames[i]);
      } else {
        assert all[..i] == frames + epoch[..i - |frames|];
        assert Follows(frames + epoch[..i - |frames|], epoch[i - |frames|]);
      }
    }
  }

  lemma DigestOfMore(frames: seq<CommitFrame>, epoch: seq<CommitFrame>)
    ensures Digest(FileBytes(frames + epoch)) == DigestExtend(Digest(FileBytes(frames)), Arena(RecordsFor(epoch)))
    ensures FileBytes(frames + epoch) == FileBytes(frames) + Arena(RecordsFor(epoch))
  {
    hide FileBytes;
    ArenaIsRecords(epoch);
    FileBytesConcat(frames, epoch);
    DigestExtendConcat(FNV_OFFSET_BASIS, FileBytes(frames), Arena(RecordsFor(epoch)));
  }

  lemma ContinuesMore(frames: seq<CommitFrame>, epoch: seq<CommitFrame>, i: nat)
    requires i < |epoch| && Continues(frames, epoch[..i]) && Follows(frames + epoch[..i], epoch[i])
    ensures Continues(frames, epoch[..i + 1])
  {
    hide Follows;
    var more := epoch[..i + 1];
    forall j | 0 <= j < |more| ensures Follows(frames + more[..j], more[j]) {
      assert more[..j] == epoch[..j];
      if j < i {
        assert epoch[..i][..j] == epoch[..j] && Follows(frames + epoch[..i][..j], epoch[..i][j]);
      }
    }
  }

  class FileEpochStore {
    const io: File
    const policy: SyncPolicy
    var frames: seq<CommitFrame>
    var state: StoreState
    var poisonReason: Option<(Phase, Phase)>
    var prefixDigest: nat
    var recoveredTailBytes: nat

    /** While the store is healthy the file is exactly the header and the encodings of the frames. */
    ghost predicate Valid()
      reads this, io
    {
      && Stored(frames) && prefixDigest == Digest(FileBytes(frames))
      && (state == Healthy ==> io.bytes == FileBytes(frames))
      && state != Repairing
    }

    constructor (io: File, policy: SyncPolicy, frames: seq<CommitFrame>, prefixDigest: nat)
      requires Stored(frames) && prefixDigest == Digest(FileBytes(frames)) && io.bytes == FileBytes(frames)
      ensures Valid() && state == Healthy && this.frames == frames && this.io == io && this.policy == policy
      ensures recoveredTailBytes == 0
    {
      this.io, this.policy, this.frames, this.prefixDigest := io, policy, frames, prefixDigest;
      state, poisonReason, recoveredTailBytes := Healthy, None, 0;
    }

    ghost function View(): StoreView
      reads this, io
    {
      StoreView(frames, state, io.calls)
    }

    function MakeCheckpoint(startOffset: nat): Checkpoint
      reads this
    {
      Checkpoint(startOffset, |frames|, TipWorld(frames), TipVersion(frames), prefixDigest)
    }

    method ValidateEpoch(epoch: seq<CommitFrame>) returns (ok: bool)
      ensures ok <==> Continues(frames, epoch)
    {
      var expectedParent, expectedVersion := TipWorld(frames), TipVersion(frames);
      for i := 0 to |epoch|
        invariant expectedParent == TipWorld(frames + epoch[..i]) && expectedVersion == TipVersion(frames + epoch[..i])
        invariant Continues(frames, epoch[..i])
      {
        var frame := epoch[i];
        if frame.parentWorld != expectedParent || frame.parentVersion != expectedVersion || expectedVersion + 1 >= U64
           || frame.resultingVersion != expectedVersion + 1 {
          assert !Follows(frames + epoch[..i], epoch[i]);
          return false;
        }
        ContinuesMore(frames, epoch, i);
        expectedParent, expectedVersion := frame.resultingWorld, frame.resultingVersion;
      }
      assert epoch[..|epoch|] == epoch;
      ok := true;
    }

    method EncodeRecords(epoch: seq<CommitFrame>) returns (records: Option<seq<seq<byte>>>)
      ensures records == if Fits(epoch) then Some(RecordsFor(epoch)) else None
    {
      hide EncodePayload, Record;
      var encoded: seq<seq<byte>> := [];
      for i := 0 to |epoch|
        invariant Fits(epoch[..i]) && encoded == RecordsFor(epoch)[..i]
      {
        var payload := WritePayload(epoch[i]);
        if |payload| > MAX_PAYLOAD {
          return None;
        }
        encoded := encoded + [Record(FRAME_MAGIC, payload)];
      }
      assert epoch[..|epoch|] == epoch && RecordsFor(epoch)[..|epoch|] == RecordsFor(epoch);
      records := Some(encoded);
    }

    /** Refuse a bad epoch before touching the file; otherwise note where the epoch will start. */
    method Prepare(epoch: seq<CommitFrame>) returns (r: Result<PreparedEpoch, EpochError>)
      requires Valid() && InRange(epoch)
      modifies io
      ensures Valid() && io.bytes == old(io.bytes) && io.durable == old(io.durable)
      ensures state != Healthy ==> r == Err(StorePoisoned) && io.calls == old(io.calls)
      ensures state == Healthy && epoch == [] ==>
        r == Ok(PreparedEpoch(MakeCheckpoint(0), [], [])) && io.calls == old(io.calls)
      ensures state == Healthy && epoch != [] && !Continues(frames, epoch) ==>
        r == Err(NonLinearAppend) && io.calls == old(io.calls)
      ensures state == Healthy && epoch != [] && Continues(frames, epoch) && !Fits(epoch) ==>
        r == Err(FrameTooLarge) && io.calls == old(io.calls)
      ensures state == Healthy && epoch != [] && Continues(frames, epoch) && Fits(epoch) ==>
        && io.calls == old(io.calls) + 1
        && r == if io.schedule(old(io.calls)).ok then Ok(PreparedEpoch(MakeCheckpoint(|io.bytes|), epoch, RecordsFor(epoch)))
                else Err(Io(EpochStart))
    {
      hide Stored, Continues, Fits, InRange, FileBytes, Digest;
      if state != Healthy {
        return Err(StorePoisoned);
      }
      if epoch == [] {
        return Ok(PreparedEpoch(MakeCheckpoint(0), [], []));
      }
      var linear := ValidateEpoch(epoch);
      if !linear {
        return Err(NonLinearAppend);
      }
      var records := EncodeRecords(epoch);
      if records.None? {
        return Err(FrameTooLarge);
      }
      var start := io.Len();
      if start.None? {
        return Err(Io(EpochStart));
      }
      r := Ok(PreparedEpoch(MakeCheckpoint(start.value), epoch, records.value));
    }

    method WriteAllAt(start: nat, data: seq<byte>) returns (failure: Option<Phase>)
      requires start == |io.bytes|
      modifies io
      ensures old(io.bytes) <= io.bytes
      ensures failure.None? ==> io.bytes == old(io.bytes) + data
      ensures (failure, io.calls) == WriteView(io.schedule, old(io.calls), |data|) && io.durable == old(io.durable)
    {
      hide WriteRuns;
      var ok := io.WriteAll(start, data);
      failure := if ok then None else Some(EpochWrite);
    }

    method Sync() returns (failure: Option<Phase>)
      modifies io
      ensures io.bytes == old(io.bytes) && io.durable == if failure.None? then io.bytes else old(io.durable)
      ensures (failure, io.calls) == SyncView(io.schedule, (None, old(io.calls)))
    {
      var ok := io.SyncData();
      failure := if ok then None else Some(EpochSync);
    }

    method WritePerFrame(start: nat, records: seq<seq<byte>>) returns (failure: Option<Phase>)
      requires start == |io.bytes|
      modifies io
      ensures old(io.bytes) <= io.bytes
      ensures failure.None? ==> io.bytes == old(io.bytes) + Arena(records) && (records != [] ==> io.durable == io.bytes)
      ensures (failure, io.calls) == PerFrameView(io.schedule, old(io.calls), records)
    {
      hide WriteView;
      var offset := start;
      assert records[0..] == records;
      for i := 0 to |records|
        invariant offset == |io.bytes| && old(io.bytes) <= io.bytes && (i > 0 ==> io.durable == io.bytes)
        invariant io.bytes + Arena(records[i..]) == old(io.bytes) + Arena(records)
        invariant PerFrameView(io.schedule, io.calls, records[i..]) == PerFrameView(io.schedule, old(io.calls), records)
      {
        assert records[i..][1..] == records[i + 1..];
        failure := WriteAllAt(offset, records[i]);
        if failure.Some? {
          return;
        }
        failure := Sync();
        if failure.Some? {
          return;
        }
        offset := offset + |records[i]|;
      }
      failure := None;
    }

    method WriteOneEpoch(start: nat, records: seq<seq<byte>>) returns (failure: Option<Phase>)
      requires start == |io.bytes|
      modifies io
      ensures old(io.bytes) <= io.bytes
      ensures failure.None? ==> io.bytes == io.durable == old(io.bytes) + Arena(records)
      ensures (failure, io.calls) == SyncView(io.schedule, WriteView(io.schedule, old(io.calls), |Arena(records)|))
    {
      hide WriteView;
      var arena := Collect(records);
      failure := WriteAllAt(start, arena);
      if failure.None? {
        failure := Sync();
      }
    }

    method Persist(start: nat, records: seq<seq<byte>>) returns (failure: Option<Phase>)
      requires start == |io.bytes|
      modifies io
      ensures old(io.bytes) <= io.bytes
      ensures failure.None? ==> io.bytes == old(io.bytes) + Arena(records) && (records != [] ==> io.durable == io.bytes)
      ensures (failure, io.calls) == PersistView(policy, io.schedule, old(io.calls), records)
    {
      hide WriteView, PerFrameView;
      match policy {
        case PerFrame => failure := WritePerFrame(start, records);
        case PerEpoch => failure := WriteOneEpoch(start, records);
        case WholeEpochTransport =>
          var arena := Collect(records);
          var ok := io.Transport(start, arena);
          failure := if ok then None else Some(EpochWrite);
      }
    }

    /** Cut the file back to the checkpoint and prove, by reading it, that the old frames are all there. */
    method Repair(checkpoint: Checkpoint) returns (failure: Option<Phase>)
      requires Stored(frames) && prefixDigest == Digest(FileBytes(frames)) && FileBytes(frames) <= io.bytes
      requires checkpoint == MakeCheckpoint(|FileBytes(frames)|)
      modifies io
      ensures (failure, io.calls) == RepairOutcome(io.schedule, old(io.calls), Reopens(frames))
      ensures failure.None? ==> io.bytes == io.durable == FileBytes(frames)
    {
      hide Stored, Reopens, FileBytes, Digest, DecodeFile;
      var cut := io.SetLen(checkpoint.startOffset);
      if !cut {
        return Some(RepairTruncate);
      }
      assert io.bytes == FileBytes(frames);
      var synced := io.SyncData();
      if !synced {
        return Some(RepairSync);
      }
      var len := io.Len();
      if len != Some(checkpoint.startOffset) {
        return Some(VerifyLength);
      }
      var content := io.ReadAll();
      if content.None? {
        return Some(VerifyRead);
      }
      failure := Verify(content.value, checkpoint);
    }

    method Verify(bytes: seq<byte>, checkpoint: Checkpoint) returns (failure: Option<Phase>)
      requires Stored(frames) && prefixDigest == Digest(FileBytes(frames)) && bytes == FileBytes(frames)
      requires checkpoint == MakeCheckpoint(|bytes|)
      ensures failure == if Reopens(frames) then None else Some(VerifyRead)
    {
      hide Stored, Decodable, Rebuild, FileBytes, DecodeFile;
      StoredFileReads(frames);
      var digest := ExtendDigest(FNV_OFFSET_BASIS, bytes);
      if digest != checkpoint.prefixDigest {
        return Some(VerifyRead);
      }
      var file := ReadFile(bytes);
      if !file.Read? || file.scan.Corrupt? || file.scan.offset != |bytes| {
        return Some(VerifyRead);
      }
      var found := file.scan.items;
      if |found| != checkpoint.frameCount || TipWorld(found) != checkpoint.worldId || TipVersion(found) != checkpoint.worldVersion {
        return Some(VerifyRead);
      }
      var rebuilt := Reconstruct(found);
      failure := if rebuilt.Ok? then None else Some(VerifyRead);
    }

    method HandlePrimaryFailure(checkpoint: Checkpoint, primary: Phase) returns (error: EpochError)
      requires Stored(frames) && prefixDigest == Digest(FileBytes(frames)) && FileBytes(frames) <= io.bytes
      requires checkpoint == MakeCheckpoint(|FileBytes(frames)|)
      modifies this`state, this`poisonReason, io
      ensures Valid() && state == if error.EpochRepaired? then Healthy else Poisoned
      ensures var (failure, calls) := RepairOutcome(io.schedule, old(io.calls), Reopens(frames));
        && io.calls == calls
        && error == match failure case None => EpochRepaired(primary) case Some(repair) => RepairFailed(primary, repair)
      ensures error.EpochRepaired? ==> io.durable == io.bytes
      ensures error.RepairFailed? ==> poisonReason == Some((primary, error.repair))
    {
      hide Stored, FileBytes, Digest, RepairOutcome, Reopens;
      state := Repairing;
      var failure := Repair(checkpoint);
      match failure {
        case None =>
          state := Healthy;
          error := EpochRepaired(primary);
        case Some(repair) =>
          state := Poisoned;
          poisonReason := Some((primary, repair));
          error := RepairFailed(primary, repair);
      }
    }

    /** Account for a persisted epoch, or undo one whose write failed. */
    method Finish(prepared: PreparedEpoch, failure: Option<Phase>) returns (r: Result<(), EpochError>)
      requires Stored(frames) && prefixDigest == Digest(FileBytes(frames)) && state == Healthy
      requires Continues(frames, prepared.frames) && InRange(prepared.frames) && Fits(prepared.frames)
      requires prepared.records == RecordsFor(prepared.frames)
      requires prepared.frames != [] ==> prepared.checkpoint == MakeCheckpoint(|FileBytes(frames)|)
      requires prepared.frames == [] ==> io.bytes == FileBytes(frames)
      requires if failure.None? then io.bytes == FileBytes(frames) + Arena(prepared.records) else FileBytes(frames) <= io.bytes
      modifies this, io
      ensures Valid()
      ensures prepared.frames == [] || failure.None? ==>
        && r == Ok(()) && state == Healthy && frames == old(frames) + prepared.frames
        && io.calls == old(io.calls) && io.bytes == old(io.bytes) && io.durable == old(io.durable)
      ensures prepared.frames != [] && failure.Some? ==>
        && r.Err? && frames == old(frames) && state == (if r.error.EpochRepaired? then Healthy else Poisoned)
        && (r.error.EpochRepaired? ==> io.durable == io.bytes)
        && var (repair, calls) := RepairOutcome(io.schedule, old(io.calls), Reopens(frames));
           && io.calls == calls
           && r.error == match repair case None => EpochRepaired(failure.value) case Some(phase) => RepairFailed(failure.value, phase)
    {
      hide Stored, Continues, InRange, Fits, FileBytes, Digest, RepairOutcome, Reopens, Arena;
      if prepared.frames == [] {
        assert frames + [] == frames;
        return Ok(());
      }
      if failure.Some? {
        var error := HandlePrimaryFailure(prepared.checkpoint, failure.value);
        return Err(error);
      }
      StoredConcat(frames, prepared.frames);
      DigestOfMore(frames, prepared.frames);
      prefixDigest := DigestRecords(prefixDigest, prepared.records);
      frames := frames + prepared.frames;
      recoveredTailBytes := 0;
      r := Ok(());
    }

    /** Append an epoch whole, or report that it was rolled back with file and frames as before, or stop for good.
        Which of these it is, and how many file calls it takes, is fixed by the policy and the schedule. */
    method AppendEpoch(epoch: seq<CommitFrame>) returns (r: Result<(), EpochError>)
      requires Valid() && InRange(epoch)
      modifies this, io
      ensures Valid()
      ensures r.Ok? ==> old(state) == Healthy && state == Healthy && frames == old(frames) + epoch
      ensures r.Err? ==> frames == old(frames)
      ensures r.Err? && !r.error.RepairFailed? ==> state == old(state) && io.bytes == old(io.bytes)
      ensures r.Err? && r.error.RepairFailed? ==> old(state) == Healthy && state == Poisoned
      ensures old(state) != Healthy <==> r == Err(StorePoisoned)
      ensures old(state) == Healthy ==>
        (r == Err(NonLinearAppend) <==> !Continues(old(frames), epoch))
        && (r == Err(FrameTooLarge) <==> Continues(old(frames), epoch) && !Fits(epoch))
      ensures r.Err? && (r.error.StorePoisoned? || r.error.NonLinearAppend? || r.error.FrameTooLarge?) ==>
        io.calls == old(io.calls)
      ensures epoch != [] && (r.Ok? || r.error.EpochRepaired?) ==> io.durable == io.bytes
      ensures epoch == [] || (r.Err? && !r.error.EpochRepaired? && !r.error.RepairFailed?) ==>
        io.bytes == old(io.bytes) && io.durable == old(io.durable)
      ensures (r, View()) == AppendView(policy, io.schedule, old(View()), epoch)
    {
      hide Stored, Continues, InRange, Fits, FileBytes, Digest, Reopens, Arena, PersistView, RepairOutcome;
      NothingContinues(frames);
      var prepared := Prepare(epoch);
      if prepared.Err? {
        return Err(prepared.error);
      }
      if prepared.value.frames == [] {
        assert frames + [] == frames;
        return Ok(());
      }
      var failure := Persist(prepared.value.checkpoint.startOffset, prepared.value.records);
      r := Finish(prepared.value, failure);
    }

    /** Fence the store off from outside, as a caller does when a transport is lost. */
    method PoisonExternal(primary: Phase)
      requires Valid()
      modifies this`state, this`poisonReason
      ensures Valid() && state == Poisoned
    {
      state, poisonReason := Poisoned, Some((primary, primary));
    }

    method FileLen() returns (r: Result<nat, EpochError>)
      requires Valid()
      modifies io
      ensures Valid() && io.bytes == old(io.bytes) && io.durable == old(io.durable)
      ensures state != Healthy ==> r == Err(StorePoisoned) && io.calls == old(io.calls)
      ensures state == Healthy ==> io.calls == old(io.calls) + 1
      ensures state == Healthy ==>
        r == if io.schedule(old(io.calls)).ok then Ok(|FileBytes(frames)|) else Err(Io(VerifyLength))
    {
      hide Stored, FileBytes, Digest;
      if state != Healthy {
        return Err(StorePoisoned);
      }
      var len := io.Len();
      r := if len.Some? then Ok(len.value) else Err(Io(VerifyLength));
    }

    /** Read the frames back from the file itself: they are the cached ones, as long as the decoder takes them. */
    method PhysicalFrames() returns (r: Result<seq<CommitFrame>, EpochError>)
      requires Valid()
      modifies io
      ensures Valid() && io.bytes == old(io.bytes) && io.durable == old(io.durable)
      ensures state != Healthy ==> r == Err(StorePoisoned) && io.calls == old(io.calls)
      ensures state == Healthy ==> io.calls == old(io.calls) + 1
      ensures state == Healthy ==>
        r == if !io.schedule(old(io.calls)).ok then Err(Io(VerifyRead)) else if Decodable(frames) then Ok(frames) else Err(Unreadable)
    {
      hide Stored, FileBytes, Digest, Decodable, DecodeFile;
      if state != Healthy {
        return Err(StorePoisoned);
      }
      var content := io.ReadAll();
      if content.None? {
        return Err(Io(VerifyRead));
      }
      StoredFileReads(frames);
      var file := ReadFile(content.value);
      if !file.Read? || file.scan.Corrupt? || file.scan.offset != |content.value| {
        return Err(Unreadable);
      }
      r := Ok(file.scan.items);
    }
  }

  lemma NothingContinues(frames: seq<CommitFrame>)
    ensures Continues(frames, []) && Fits([])
  {
  }

  method Collect(records: seq<seq<byte>>) returns (arena: seq<byte>)
    ensures arena == Arena(records)
  {
    arena := [];
    assert records[0..] == records;
    for i := 0 to |records|
      invariant arena + Arena(records[i..]) == Arena(records)
    {
      assert records[i..][1..] == records[i + 1..];
      arena := arena + records[i];
    }
  }

  method DigestRecords(start: nat, records: seq<seq<byte>>) returns (digest: nat)
    ensures digest == DigestExtend(start, Arena(records))
  {
    digest := start;
    assert records[0..] == records;
    for i := 0 to |records|
      invariant DigestExtend(digest, Arena(records[i..])) == DigestExtend(start, Arena(records))
    {
      assert records[i..][1..] == records[i + 1..];
      DigestExtendConcat(digest, records[i], Arena(records[i + 1..]));
      digest := ExtendDigest(digest, records[i]);
    }
  }

  // ---- Opening ----

  lemma HistoryIsStored(frames: seq<CommitFrame>)
    requires History(frames)
    ensures Stored(frames) && Decodable(frames)
  {
    hide EncodePayload, Storable, Follows;
    assert forall i :: 0 <= i < |frames| ==> Persistable(frames[i]);
  }

  /** Open over a file another opener has already trimmed: it must be whole and replayable. */
  method FromIo(io: File, policy: SyncPolicy) returns (store: Option<FileEpochStore>)
    modifies io
    ensures io.bytes == old(io.bytes) && io.durable == old(io.durable)
    ensures store.Some? ==>
      fresh(store.value) && store.value.Valid() && store.value.state == Healthy && store.value.io == io
    ensures store.Some? ==> Reopens(store.value.frames) && io.bytes == FileBytes(store.value.frames)
    ensures store.None? <==> !io.schedule(old(io.calls)).ok || !Opens(io.bytes)
  {
    hide Stored, Decodable, Rebuild, FileBytes, DecodeFile, History;
    var content := io.ReadAll();
    if content.None? {
      return None;
    }
    var file := ReadFile(content.value);
    if !file.Read? || file.scan.Corrupt? || file.scan.offset != |content.value| {
      return None;
    }
    FileCanonical(content.value, file.scan.items, file.scan.offset);
    HistoryIsStored(file.scan.items);
    assert content.value[..|content.value|] == content.value;
    var rebuilt := Reconstruct(file.scan.items);
    if rebuilt.Err? {
      return None;
    }
    var digest := ExtendDigest(FNV_OFFSET_BASIS, content.value);
    var fileStore := new FileEpochStore(io, policy, file.scan.items, digest);
    store := Some(fileStore);
  }

  /** A file that opens without trimming: it reads to its end and its history replays. */
  ghost predicate Opens(bytes: seq<byte>) {
    var file := DecodeFile(bytes);
    file.Read? && file.scan.Scan? && file.scan.offset == |bytes| && Rebuild(file.scan.items).Ok?
  }

  const HEADER_PIECES: seq<seq<byte>> := [FILE_MAGIC, LittleEndian(FILE_VERSION, 4), LittleEndian(FILE_FLAGS, 4)]

  lemma PiecesAreHeader()
    ensures Joined(HEADER_PIECES) == FileHeader() == FileBytes([])
    ensures DecodeFile(FileHeader()) == Read(Scan([], HEADER_LEN)) && DecodeFile([]).InvalidHeader?
  {
    hide ScanFrom, LittleEndian;
    JoinedThree(FILE_MAGIC, LittleEndian(FILE_VERSION, 4), LittleEndian(FILE_FLAGS, 4));
    assert FileBytes([]) == FileHeader() + [];
    ReadBack([]);
  }

  /** What opening a file at call `k` gives: its history, when the file reads as one that replays, every call that
      reading or creating takes succeeds, and the two calls that trim an incomplete tail do so too. */
  ghost function ColdOpenView(schedule: nat -> Outcome, k: nat, bytes: seq<byte>): Option<seq<CommitFrame>> {
    var content := if bytes == [] then FileHeader() else bytes;
    var (readable, next) := OpenRuns(schedule, k, bytes == [], HEADER_PIECES);
    match DecodeFile(content)
    case InvalidHeader | UnsupportedFormat(_) => None
    case Read(scan) =>
      if !readable || scan.Corrupt? then None
      else if scan.offset != |content| && !(schedule(next).ok && schedule(next + 1).ok) then None
      else if Rebuild(scan.items).Err? then None
      else Some(scan.items)
  }

  /** Trim the incomplete tail a crash may have left, then check that the history replays; a new file gets its
      header first. Nothing is written to a file whose tail is whole, so a second open changes nothing. */
  method ColdOpen(io: File) returns (frames: Option<seq<CommitFrame>>, trimmed: nat)
    modifies io
    ensures frames == ColdOpenView(io.schedule, old(io.calls), old(io.bytes))
    ensures frames.Some? ==>
      && History(frames.value) && Rebuild(frames.value).Ok? && io.bytes == FileBytes(frames.value) && Opens(io.bytes)
    ensures frames.Some? && old(io.bytes) == [] ==> frames.value == [] && trimmed == 0
    ensures frames.Some? && old(io.bytes) != [] ==> io.bytes <= old(io.bytes) && trimmed == |old(io.bytes)| - |io.bytes|
    ensures frames.None? && old(io.bytes) == [] ==> io.bytes <= FileHeader()
    ensures frames.None? && old(io.bytes) != [] ==>
      io.bytes == old(io.bytes) || (ReadsTo(old(io.bytes), |io.bytes|) && io.bytes < old(io.bytes))
    ensures Opens(old(io.bytes)) ==> io.bytes == old(io.bytes) && trimmed == 0
    ensures frames.Some? ==>
      io.durable == if old(io.bytes) == [] || trimmed > 0 then io.bytes else old(io.durable)
  {
    hide Decodable, Rebuild, FileBytes, DecodeFile, History, OpenRuns, LittleEndian, Joined;
    frames, trimmed := None, 0;
    PiecesAreHeader();
    var content := io.ReadOrCreate(HEADER_PIECES);
    if content.None? {
      return;
    }
    var file := ReadFile(content.value);
    if !file.Read? || file.scan.Corrupt? {
      return;
    }
    var found, good := file.scan.items, file.scan.offset;
    FileCanonical(content.value, found, good);
    SecondOpenTrimsNothing(content.value, found, good);
    assert content.value[..|content.value|] == content.value;
    trimmed := |content.value| - good;
    if trimmed != 0 {
      var cut := io.SetLen(good);
      if !cut {
        return;
      }
      var synced := io.SyncData();
      if !synced {
        return;
      }
    }
    var rebuilt := Reconstruct(found);
    if rebuilt.Ok? {
      frames := Some(found);
    }
  }

  /** The last good offset of a file that reads. */
  ghost predicate ReadsTo(bytes: seq<byte>, offset: nat) {
    var file := DecodeFile(bytes);
    file.Read? && file.scan.Scan? && file.scan.offset == offset
  }

  /** A creation that stops inside the header leaves a file that never opens again. */
  lemma TornHeaderStaysShut(bytes: seq<byte>, schedule: nat -> Outcome, k: nat)
    requires bytes < FileHeader()
    ensures ColdOpenView(schedule, k, bytes).Some? ==> bytes == []
    ensures bytes == [] ==>
      (ColdOpenView(schedule, k, bytes) == Some([]) <==> OpenRuns(schedule, k, true, HEADER_PIECES).0)
  {
    hide OpenRuns, LittleEndian;
    PiecesAreHeader();
    assert Rebuild([]).Ok?;
  }

  // ---- A frame that does not replay ----

  /** Its allocator is not the one that replaying it leaves. */
  const UNREPLAYABLE: CommitFrame := CommitFrame(GENESIS, 0, 0, 1, 5, [])

  const NEXT: CommitFrame := CommitFrame(0, 1, 1, 2, 5, [])

  lemma UnreplayableIsAccepted()
    ensures InRange([UNREPLAYABLE]) && Continues([], [UNREPLAYABLE]) && Fits([UNREPLAYABLE])
    ensures InRange([NEXT]) && Continues([UNREPLAYABLE], [NEXT]) && Fits([NEXT])
    ensures !Reopens([UNREPLAYABLE])
  {
    assert [] + [UNREPLAYABLE][..0] == [] && [UNREPLAYABLE] + [NEXT][..0] == [UNREPLAYABLE];
    assert Rebuild([UNREPLAYABLE][..0]) == Ok(GENESIS_WORLD);
  }

  /** A store does not check that its frames replay. An epoch of this frame is appended; when the next epoch's write
      fails, the store is poisoned although every call of its repair succeeds. */
  lemma UnreplayableFramePoisons(schedule: nat -> Outcome)
    requires forall k :: schedule(k).ok <==> k != 3
    ensures var stored := StoreView([UNREPLAYABLE], Healthy, 2);
      && AppendView(WholeEpochTransport, schedule, StoreView([], Healthy, 0), [UNREPLAYABLE]) == (Ok(()), stored)
      && RepairRuns(schedule, 4)
      && AppendView(WholeEpochTransport, schedule, stored, [NEXT])
         == (Err(RepairFailed(EpochWrite, VerifyRead)), StoreView([UNREPLAYABLE], Poisoned, 8))
  {
    hide InRange, Continues, Fits, Reopens, RecordsFor;
    UnreplayableIsAccepted();
    assert [] + [UNREPLAYABLE] == [UNREPLAYABLE];
  }

  // ---- Whole runs ----

  /** Any run of epochs under any fault schedule: what is stored is the frames that were there, followed by
      exactly the epochs reported as appended, and once the store is poisoned the file is left alone. */
  method RunEpochs(store: FileEpochStore, epochs: seq<seq<CommitFrame>>) returns (appended: seq<bool>)
    requires store.Valid() && forall i :: 0 <= i < |epochs| ==> InRange(epochs[i])
    modifies store, store.io
    ensures store.Valid() && |appended| == |epochs|
    ensures store.frames == old(store.frames) + Chosen(epochs, appended)
    ensures store.state == Healthy ==> store.io.bytes == FileBytes(old(store.frames) + Chosen(epochs, appended))
    ensures old(store.state) != Healthy ==>
      store.state == old(store.state) && store.io.bytes == old(store.io.bytes) && store.io.calls == old(store.io.calls)
    ensures old(store.io.durable) == old(store.io.bytes) && store.state == Healthy ==> store.io.durable == store.io.bytes
  {
    hide *;
    appended := [];
    ghost var start, state, bytes, calls := store.frames, store.state, store.io.bytes, store.io.calls;
    ghost var synced := store.io.durable == bytes;
    NothingChosen(start);
    for i := 0 to |epochs|
      invariant store.Valid() && |appended| == i
      invariant store.frames == start + Chosen(epochs[..i], appended)
      invariant state != Healthy ==> store.state == state && store.io.bytes == bytes && store.io.calls == calls
      invariant synced && store.state == Healthy ==> store.io.durable == store.io.bytes
    {
      var ok := TryAppend(store, epochs[i]);
      ChosenMore(epochs, i, appended, ok, start);
      appended := appended + [ok];
    }
    assert epochs[..|epochs|] == epochs;
    HealthyFile(store);
  }

  lemma HealthyFile(store: FileEpochStore)
    requires store.Valid()
    ensures store.state == Healthy ==> store.io.bytes == FileBytes(store.frames)
  {
  }

  lemma NothingChosen(start: seq<CommitFrame>)
    ensures start + Chosen([], []) == start
  {
  }

  method TryAppend(store: FileEpochStore, epoch: seq<CommitFrame>) returns (ok: bool)
    requires store.Valid() && InRange(epoch)
    modifies store, store.io
    ensures store.Valid() && store.frames == old(store.frames) + if ok then epoch else []
    ensures old(store.state) != Healthy ==>
      store.state == old(store.state) && store.io.bytes == old(store.io.bytes) && store.io.calls == old(store.io.calls)
    ensures old(store.io.durable) == old(store.io.bytes) && store.state == Healthy ==> store.io.durable == store.io.bytes
  {
    hide *;
    var r := store.AppendEpoch(epoch);
    ok := r.Ok?;
  }

  function Chosen(epochs: seq<seq<CommitFrame>>, appended: seq<bool>): seq<CommitFrame>
    requires |epochs| == |appended|
    decreases |epochs|
  {
    if epochs == [] then []
    else Chosen(epochs[..|epochs| - 1], appended[..|epochs| - 1]) + if appended[|epochs| - 1] then epochs[|epochs| - 1] else []
  }

  lemma ChosenMore(epochs: seq<seq<CommitFrame>>, i: nat, appended: seq<bool>, ok: bool, start: seq<CommitFrame>)
    requires i < |epochs| && |appended| == i
    ensures start + Chosen(epochs[..i + 1], appended + [ok])
         == start + Chosen(epochs[..i], appended) + if ok then epochs[i] else []
  {
    assert epochs[..i + 1][..i] == epochs[..i] && (appended + [ok])[..i] == appended;
  }
}
