/** What appending an epoch promises, said on the fault schedule alone: which call decides, and what it decides. */
module EpochLaws {
  import opened Words
  import opened Facts
  import opened Commits
  import opened CommitFile
  import Worlds
  import opened FaultyFile
  import opened EpochStore

  /** The epoch is one the store tries to write: nothing refuses it and the length of the file is known. */
  ghost predicate Attempted(schedule: nat -> Outcome, v: StoreView, epoch: seq<CommitFrame>) {
    v.state == Healthy && epoch != [] && Continues(v.frames, epoch) && Fits(epoch) && schedule(v.calls).ok
  }

  /** An epoch continues a linear history exactly when the two together are one. */
  lemma {:induction false} ContinuesExactly(frames: seq<CommitFrame>, epoch: seq<CommitFrame>)
    requires Linear(frames)
    ensures Continues(frames, epoch) <==> Linear(frames + epoch)
    decreases |epoch|
  {
    hide Linear, Continues, Follows;
    if epoch == [] {
      NothingContinues(frames);
      assert frames + [] == frames;
    } else {
      var front, last := epoch[..|epoch| - 1], epoch[|epoch| - 1];
      ContinuesExactly(frames, front);
      OneMoreLink(frames + epoch);
      assert (frames + epoch)[..|frames + epoch| - 1] == frames + front;
      OneMoreContinues(frames, epoch);
    }
  }

  lemma OneMoreContinues(frames: seq<CommitFrame>, epoch: seq<CommitFrame>)
    requires epoch != []
    ensures var front, last := epoch[..|epoch| - 1], epoch[|epoch| - 1];
      Continues(frames, epoch) <==> Continues(frames, front) && Follows(frames + front, last)
  {
    hide Follows;
    var front, n := epoch[..|epoch| - 1], |epoch| - 1;
    assert forall i :: 0 <= i < n ==> front[i] == epoch[i] && front[..i] == epoch[..i];
  }

  /** What is written and synced at a time: each record under `PerFrame`, otherwise all of them. */
  ghost function Pieces(policy: SyncPolicy, epoch: seq<CommitFrame>): seq<seq<byte>> {
    if policy.PerFrame? then RecordsFor(epoch) else [Arena(RecordsFor(epoch))]
  }

  /** The call at which writing piece `i` starts: each piece before it has taken its writes and one sync. */
  ghost function PieceStart(schedule: nat -> Outcome, k: nat, pieces: seq<seq<byte>>, i: nat): nat
    requires i <= |pieces|
  {
    if i == 0 then k else WriteRuns(schedule, PieceStart(schedule, k, pieces, i - 1), |pieces[i - 1]|).1 + 1
  }

  /** Whether piece `i` is written, and the call behind its last write. */
  ghost function PieceWrite(schedule: nat -> Outcome, k: nat, pieces: seq<seq<byte>>, i: nat): (bool, nat)
    requires i < |pieces|
  {
    WriteRuns(schedule, PieceStart(schedule, k, pieces, i), |pieces[i]|)
  }

  /** Piece `i` is written, and the call behind its last write, which syncs it, succeeds. */
  ghost predicate PieceDone(schedule: nat -> Outcome, k: nat, pieces: seq<seq<byte>>, i: nat)
    requires i < |pieces|
  {
    PieceWrite(schedule, k, pieces, i).0 && schedule(PieceWrite(schedule, k, pieces, i).1).ok
  }

  ghost predicate AllDone(schedule: nat -> Outcome, k: nat, pieces: seq<seq<byte>>, upTo: nat)
    requires upTo <= |pieces|
  {
    forall i :: 0 <= i < upTo ==> PieceDone(schedule, k, pieces, i)
  }

  /** The calls of a repair, in their order. */
  const REPAIR_PHASES: seq<Phase> := [RepairTruncate, RepairSync, VerifyLength, VerifyRead]

  /** The first `n` calls from `k` on succeed. */
  ghost predicate AllSucceed(schedule: nat -> Outcome, k: nat, n: nat) {
    n == 0 || (AllSucceed(schedule, k, n - 1) && schedule(k + n - 1).ok)
  }

  /** A repair that starts at call `k` stops at its call `j`: the first that fails, or the last when what was read
      does not open. */
  ghost predicate StopsAt(schedule: nat -> Outcome, k: nat, reopens: bool, j: nat) {
    j < 4 && AllSucceed(schedule, k, j) && (!schedule(k + j).ok || (j == 3 && !reopens))
  }

  /** How an epoch over these frames ends when its phase `primary` failed and `k` is the call behind the failed one. */
  ghost predicate Undone(schedule: nat -> Outcome, k: nat, frames: seq<CommitFrame>, primary: Phase,
                         r: Result<(), EpochError>, after: StoreView) {
    && after.frames == frames && r.Err?
    && (r == Err(EpochRepaired(primary)) <==> AllSucceed(schedule, k, 4) && Reopens(frames))
    && (forall j: nat :: StopsAt(schedule, k, Reopens(frames), j) ==> r == Err(RepairFailed(primary, REPAIR_PHASES[j])))
    && after.state == if r.error.EpochRepaired? then Healthy else Poisoned
  }

  lemma RepairEnds(schedule: nat -> Outcome, v: StoreView, epoch: seq<CommitFrame>, primary: Phase)
    requires v.state == Healthy
    ensures var (r, after) := FinishView(schedule, v, epoch, Some(primary)); Undone(schedule, v.calls, v.frames, primary, r, after)
  {
    hide Reopens;
    var k := v.calls;
    assert AllSucceed(schedule, k, 1) <==> schedule(k).ok;
    assert AllSucceed(schedule, k, 2) <==> schedule(k).ok && schedule(k + 1).ok;
    assert AllSucceed(schedule, k, 3) <==> schedule(k).ok && schedule(k + 1).ok && schedule(k + 2).ok;
    var (r, after) := FinishView(schedule, v, epoch, Some(primary));
    forall j: nat | StopsAt(schedule, k, Reopens(v.frames), j) ensures r == Err(RepairFailed(primary, REPAIR_PHASES[j])) {
      assert j == 0 || j == 1 || j == 2 || j == 3;
    }
  }

  lemma PieceShift(schedule: nat -> Outcome, k: nat, pieces: seq<seq<byte>>, i: nat)
    requires 0 < i <= |pieces|
    ensures PieceStart(schedule, k, pieces, i)
         == PieceStart(schedule, WriteRuns(schedule, k, |pieces[0]|).1 + 1, pieces[1..], i - 1)
  {
    hide WriteRuns;
    if i > 1 {
      PieceShift(schedule, k, pieces, i - 1);
      assert pieces[1..][i - 2] == pieces[i - 1];
    }
  }

  /** The walk over the records under `PerFrame`, at each of its pieces. */
  lemma {:induction false} PerFrameWalk(schedule: nat -> Outcome, k: nat, pieces: seq<seq<byte>>, i: nat)
    requires i <= |pieces| && AllDone(schedule, k, pieces, i)
    ensures i == |pieces| ==> PerFrameView(schedule, k, pieces) == (None, PieceStart(schedule, k, pieces, i))
    ensures i < |pieces| && !PieceDone(schedule, k, pieces, i) ==>
      var (written, next) := PieceWrite(schedule, k, pieces, i);
      PerFrameView(schedule, k, pieces) == if written then (Some(EpochSync), next + 1) else (Some(EpochWrite), next)
    decreases |pieces|
  {
    hide WriteRuns;
    if i > 0 {
      assert PieceDone(schedule, k, pieces, 0);
      var rest, start := pieces[1..], WriteRuns(schedule, k, |pieces[0]|).1 + 1;
      forall j | 0 <= j < i - 1 ensures PieceDone(schedule, start, rest, j) {
        assert PieceDone(schedule, k, pieces, j + 1);
        PieceShift(schedule, k, pieces, j + 1);
      }
      PieceShift(schedule, k, pieces, i);
      PerFrameWalk(schedule, start, rest, i - 1);
    }
  }

  lemma PersistDone(policy: SyncPolicy, schedule: nat -> Outcome, k: nat, epoch: seq<CommitFrame>)
    requires !policy.WholeEpochTransport? && AllDone(schedule, k, Pieces(policy, epoch), |Pieces(policy, epoch)|)
    ensures PersistView(policy, schedule, k, RecordsFor(epoch)).0 == None
  {
    hide WriteRuns, RecordsFor, Arena;
    var pieces := Pieces(policy, epoch);
    if policy.PerFrame? {
      PerFrameWalk(schedule, k, pieces, |pieces|);
    } else {
      assert PieceDone(schedule, k, pieces, 0);
    }
  }

  lemma PersistStops(policy: SyncPolicy, schedule: nat -> Outcome, k: nat, epoch: seq<CommitFrame>, i: nat)
    requires !policy.WholeEpochTransport? && i < |Pieces(policy, epoch)|
    requires AllDone(schedule, k, Pieces(policy, epoch), i) && !PieceDone(schedule, k, Pieces(policy, epoch), i)
    ensures var (written, next) := PieceWrite(schedule, k, Pieces(policy, epoch), i);
      PersistView(policy, schedule, k, RecordsFor(epoch)) == if written then (Some(EpochSync), next + 1) else (Some(EpochWrite), next)
  {
    hide WriteRuns, RecordsFor, Arena;
    if policy.PerFrame? {
      PerFrameWalk(schedule, k, Pieces(policy, epoch), i);
    }
  }

  lemma FirstUndone(schedule: nat -> Outcome, k: nat, pieces: seq<seq<byte>>, upTo: nat) returns (i: nat)
    requires upTo <= |pieces| && !AllDone(schedule, k, pieces, upTo)
    ensures i < upTo && AllDone(schedule, k, pieces, i) && !PieceDone(schedule, k, pieces, i)
  {
    i := 0;
    while PieceDone(schedule, k, pieces, i)
      invariant i < upTo && AllDone(schedule, k, pieces, i)
      decreases upTo - i
    {
      i := i + 1;
    }
  }

  /** An epoch is acknowledged exactly when each piece of it is written and the call behind the piece, which syncs
      it, succeeds. */
  lemma AcknowledgedIsSynced(policy: SyncPolicy, schedule: nat -> Outcome, v: StoreView, epoch: seq<CommitFrame>)
    requires Attempted(schedule, v, epoch) && !policy.WholeEpochTransport?
    ensures var (r, after) := AppendView(policy, schedule, v, epoch);
      && (r.Ok? <==> AllDone(schedule, v.calls + 1, Pieces(policy, epoch), |Pieces(policy, epoch)|))
      && (r.Ok? ==> after.frames == v.frames + epoch && after.state == Healthy)
  {
    hide Continues, Fits, Reopens, RecordsFor, PersistView, RepairOutcome, Pieces, PieceDone;
    var k, pieces := v.calls + 1, Pieces(policy, epoch);
    if AllDone(schedule, k, pieces, |pieces|) {
      PersistDone(policy, schedule, k, epoch);
    } else {
      var i := FirstUndone(schedule, k, pieces, |pieces|);
      PersistStops(policy, schedule, k, epoch, i);
    }
  }

  /** The first piece that is not done decides the error: a write that stops is undone from the call behind it on,
      and so is a sync that fails. */
  lemma FirstFailureDecides(policy: SyncPolicy, schedule: nat -> Outcome, v: StoreView, epoch: seq<CommitFrame>, i: nat)
    requires Attempted(schedule, v, epoch) && !policy.WholeEpochTransport? && i < |Pieces(policy, epoch)|
    requires AllDone(schedule, v.calls + 1, Pieces(policy, epoch), i)
    requires !PieceDone(schedule, v.calls + 1, Pieces(policy, epoch), i)
    ensures var (r, after) := AppendView(policy, schedule, v, epoch);
      var (written, next) := PieceWrite(schedule, v.calls + 1, Pieces(policy, epoch), i);
      if written then Undone(schedule, next + 1, v.frames, EpochSync, r, after)
      else Undone(schedule, next, v.frames, EpochWrite, r, after)
  {
    hide Continues, Fits, Reopens, RecordsFor, PersistView, RepairOutcome, Pieces, PieceDone, Undone, FinishView;
    PersistStops(policy, schedule, v.calls + 1, epoch, i);
    var (failure, calls) := PersistView(policy, schedule, v.calls + 1, RecordsFor(epoch));
    RepairEnds(schedule, v.(calls := calls), epoch, failure.value);
  }

  /** A transported epoch is decided by the one call behind the length. */
  lemma TransportDecides(schedule: nat -> Outcome, v: StoreView, epoch: seq<CommitFrame>)
    requires Attempted(schedule, v, epoch)
    ensures var (r, after) := AppendView(WholeEpochTransport, schedule, v, epoch);
      if schedule(v.calls + 1).ok then r == Ok(()) && after == StoreView(v.frames + epoch, Healthy, v.calls + 2)
      else Undone(schedule, v.calls + 2, v.frames, EpochWrite, r, after)
  {
    hide Continues, Fits, Reopens, RecordsFor, RepairOutcome, Undone;
    if !schedule(v.calls + 1).ok {
      RepairEnds(schedule, v.(calls := v.calls + 2), epoch, EpochWrite);
    }
  }

  /** A file opens exactly when it can be read or created, reads as whole frames up to a tail, these frames replay,
      and, if there is a tail, the calls that cut it off and sync the file succeed. */
  lemma OpensExactly(schedule: nat -> Outcome, k: nat, bytes: seq<byte>)
    ensures var content := if bytes == [] then FileHeader() else bytes;
      var file, read := DecodeFile(content), ReadCall(schedule, k, bytes == [], HEADER_PIECES);
      && (ColdOpenView(schedule, k, bytes).Some? <==>
            && Readable(schedule, k, bytes == [], HEADER_PIECES)
            && file.Read? && file.scan.Scan? && Worlds.Rebuild(file.scan.items).Ok?
            && (file.scan.offset == |content| || (schedule(read + 1).ok && schedule(read + 2).ok)))
      && (ColdOpenView(schedule, k, bytes).Some? ==> ColdOpenView(schedule, k, bytes).value == file.scan.items)
  {
    hide OpenRuns, Readable, ReadCall, DecodeFile, Worlds.Rebuild;
    OpensByItsCalls(schedule, k, bytes == [], HEADER_PIECES);
  }
}
