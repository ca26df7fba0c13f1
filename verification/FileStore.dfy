/** The plain file store: one record per commit, taken back as far as the file allows when writing it fails. Unlike the
    epoch store it does not look whether taking it back worked, and goes on behind whatever is left. */
module FileStore {
  import opened Words
  import opened Facts
  import opened Commits
  import opened Framing
  import opened FrameCodec
  import opened CommitFile
  import opened FaultyFile
  import E = EpochStore

  datatype AppendError = NonLinearAppend | FrameTooLarge | Io

  function RecordFor(frame: CommitFrame): seq<byte> { Record(FRAME_MAGIC, EncodePayload(frame)) }

  /** Whether appending `n` bytes from call `k` on gets them onto the disk, and the number of the call after that. */
  ghost function AppendRuns(schedule: nat -> Outcome, k: nat, n: nat): (bool, nat) {
    if !schedule(k).ok then (false, k + 1)
    else
      var (ok, next) := WriteRuns(schedule, k + 1, n);
      if ok then (schedule(next).ok, next + 1) else (false, next)
  }

  /** A failed append leaves bytes: some were written, and the truncation at call `next` does not happen. */
  ghost predicate LeavesBytes(schedule: nat -> Outcome, k: nat, n: nat) {
    var (persisted, next) := AppendRuns(schedule, k, n);
    schedule(k).ok && !persisted && Landed(schedule, k + 1, n) > 0 && !Truncates(schedule(next))
  }

  /** How many of the bytes of an append from call `k` on are in the file when it is over. */
  ghost function Left(schedule: nat -> Outcome, k: nat, n: nat): (left: nat)
    ensures left <= n
  {
    if AppendRuns(schedule, k, n).0 then n
    else if LeavesBytes(schedule, k, n) then Landed(schedule, k + 1, n)
    else 0
  }

  /** The frames a store lists, what is in its file, and how far the file's schedule has run. */
  datatype FileView = FileView(frames: seq<CommitFrame>, bytes: seq<byte>, calls: nat)

  ghost predicate Reaches(v: FileView, frame: CommitFrame) {
    Follows(v.frames, frame) && |EncodePayload(frame)| <= MAX_PAYLOAD
  }

  /** The whole effect of an append, as a function of the schedule alone. */
  ghost function AppendView(schedule: nat -> Outcome, v: FileView, frame: CommitFrame): (Result<(), AppendError>,
                            FileView) {
    if !Follows(v.frames, frame) then (Err(NonLinearAppend), v)
    else if |EncodePayload(frame)| > MAX_PAYLOAD then (Err(FrameTooLarge), v)
    else
      var record := RecordFor(frame);
      var (persisted, next) := AppendRuns(schedule, v.calls, |record|);
      var bytes := v.bytes + record[..Left(schedule, v.calls, |record|)];
      if persisted then (Ok(()), FileView(v.frames + [frame], bytes, next))
      else (Err(Io), FileView(v.frames, bytes, if schedule(v.calls).ok then next + 3 else next))
  }

  class FileCommitStore {
    const io: File
    var frames: seq<CommitFrame>
    var recoveredTailBytes: nat

    ghost predicate Valid()
      reads this, io
    {
      Stored(frames) && |io.bytes| >= |FileBytes(frames)| && (Residue() == 0 ==> io.bytes == FileBytes(frames))
    }

    /** How many bytes of failed appends are still in the file. */
    ghost function Residue(): int
      reads this, io
    {
      |io.bytes| - |FileBytes(frames)|
    }

    ghost function View(): FileView
      reads this, io
    {
      FileView(frames, io.bytes, io.calls)
    }

    constructor (io: File, frames: seq<CommitFrame>, recoveredTailBytes: nat)
      requires Stored(frames) && io.bytes == FileBytes(frames)
      ensures Valid() && this.io == io && this.frames == frames && Residue() == 0
    {
      this.io, this.frames, this.recoveredTailBytes := io, frames, recoveredTailBytes;
    }

    method ValidateAppend(frame: CommitFrame) returns (ok: bool)
      ensures ok <==> Follows(frames, frame)
    {
      var expectedParent, expectedVersion := TipWorld(frames), TipVersion(frames);
      ok := frame.parentWorld == expectedParent && frame.parentVersion == expectedVersion
            && expectedVersion + 1 < U64 && frame.resultingVersion == expectedVersion + 1;
    }

    /** Write the record behind the end of the file and sync it. */
    method WriteRecord(record: seq<byte>) returns (start: Option<nat>, ok: bool)
      modifies io
      ensures start == if io.schedule(old(io.calls)).ok then Some(|old(io.bytes)|) else None
      ensures start.None? ==> !ok && io.bytes == old(io.bytes)
      ensures start.Some? ==> io.bytes == old(io.bytes) + record[..Landed(io.schedule, old(io.calls) + 1, |record|)]
      ensures ok ==> io.bytes == old(io.bytes) + record
      ensures io.durable == if ok then io.bytes else old(io.durable)
      ensures (ok, io.calls) == AppendRuns(io.schedule, old(io.calls), |record|)
    {
      hide WriteRuns, Landed;
      start := io.Len();
      if start.None? {
        return start, false;
      }
      ok := io.WriteAll(start.value, record);
      if ok {
        ok := io.SyncData();
      }
    }

    /** What the failed append left is cut off; whether that succeeds is not looked at. */
    method RollbackFailedAppend(start: nat)
      requires start <= |io.bytes|
      modifies io
      ensures io.bytes == if Truncates(io.schedule(old(io.calls))) then old(io.bytes)[..start] else old(io.bytes)
      ensures io.durable == if io.schedule(old(io.calls) + 2).ok then io.bytes else old(io.durable)
      ensures io.calls == old(io.calls) + 3
    {
      var _ := io.SetLen(start);
      var _ := io.Len();
      var _ := io.SyncData();
    }

    /** Append a frame, or fail. Result, file and number of file calls are fixed by the schedule; a failed append leaves
        bytes in the file exactly when some were written and the truncation did not happen. */
    method Append(frame: CommitFrame) returns (r: Result<(), AppendError>)
      requires Valid() && Storable(frame)
      modifies this, io
      ensures Valid()
      ensures r == Err(NonLinearAppend) <==> !Follows(old(frames), frame)
      ensures r == Err(FrameTooLarge) <==> Follows(old(frames), frame) && |EncodePayload(frame)| > MAX_PAYLOAD
      ensures r.Err? && !r.error.Io? ==>
        io.bytes == old(io.bytes) && io.durable == old(io.durable) && io.calls == old(io.calls)
      ensures r.Ok? ==>
        && frames == old(frames) + [frame] && Residue() == old(Residue())
        && io.bytes == io.durable == old(io.bytes) + RecordFor(frame)
      ensures r.Err? ==>
        && frames == old(frames) && old(io.bytes) <= io.bytes <= old(io.bytes) + RecordFor(frame)
        && Residue() == old(Residue()) + |io.bytes| - |old(io.bytes)|
      ensures r == Err(Io) ==>
        (io.bytes != old(io.bytes) <==> LeavesBytes(io.schedule, old(io.calls), |RecordFor(frame)|))
      ensures (r, View()) == AppendView(io.schedule, old(View()), frame)
    {
      hide Stored, Follows, FileBytes, EncodePayload, Record, AppendRuns, Storable, Landed;
      var linear := ValidateAppend(frame);
      if !linear {
        return Err(NonLinearAppend);
      }
      var payload := WritePayload(frame);
      if |payload| > MAX_PAYLOAD {
        return Err(FrameTooLarge);
      }
      ghost var before := io.bytes;
      var start, ok := WriteRecord(Record(FRAME_MAGIC, payload));
      if !ok {
        if start.Some? {
          RollbackFailedAppend(start.value);
        }
        assert before + RecordFor(frame)[..0] == before;
        return Err(Io);
      }
      OneMoreFrame(frames, frame);
      assert RecordFor(frame)[..|RecordFor(frame)|] == RecordFor(frame);
      frames := frames + [frame];
      recoveredTailBytes := 0;
      r := Ok(());
    }
  }

  lemma OneMoreFrame(frames: seq<CommitFrame>, frame: CommitFrame)
    requires Stored(frames) && Follows(frames, frame) && Storable(frame) && |EncodePayload(frame)| <= MAX_PAYLOAD
    ensures Stored(frames + [frame]) && FileBytes(frames + [frame]) == FileBytes(frames) + RecordFor(frame)
  {
    hide Follows, EncodePayload, Record, Storable;
    assert [frame][..0] == [] && frames + [] == frames;
    assert E.Continues(frames, [frame]) && E.InRange([frame]) && E.Fits([frame]);
    E.StoredConcat(frames, [frame]);
    FileBytesConcat(frames, [frame]);
    assert Payloads([frame]) == [EncodePayload(frame)];
    assert [EncodePayload(frame)][1..] == [];
  }

  // ---- What is there after a failure ----

  /** The file reads to its end as the frames exactly when it is their encoding. */
  lemma ReadsBackExactly(frames: seq<CommitFrame>, bytes: seq<byte>)
    requires Stored(frames) && Decodable(frames)
    ensures DecodeFile(bytes) == Read(Scan(frames, |bytes|)) <==> bytes == FileBytes(frames)
  {
    hide Stored, Decodable, FileBytes, DecodeFile;
    StoredFileReads(frames);
    if DecodeFile(bytes) == Read(Scan(frames, |bytes|)) {
      FileCanonical(bytes, frames, |bytes|);
      assert bytes[..|bytes|] == bytes;
    }
  }

  /** What one failed append left at the end of the file is trimmed by the next open; but when all of it is there, the
      append that was reported as failed takes effect after all. */
  lemma FailedAppendMayReturn(frames: seq<CommitFrame>, frame: CommitFrame, left: seq<byte>)
    requires History(frames + [frame]) && left <= RecordFor(frame)
    ensures DecodeFile(FileBytes(frames) + left)
         == Read(if left == RecordFor(frame) then Scan(frames + [frame], |FileBytes(frames) + left|) else Scan(frames, |FileBytes(frames)|))
  {
    hide DecodeFile, Record, EncodePayload, Records, Whole, FileHeader;
    var all := FileBytes(frames + [frame]);
    LastFrame(frames, frame);
    var cut := |FileBytes(frames) + left|;
    assert all[..cut] == FileBytes(frames) + left;
    EpochCrash(frames, [frame], cut);
    var n: nat :| n <= 1 && DecodeFile(all[..cut]) == Read(Scan(frames + [frame][..n], |FileBytes(frames + [frame][..n])|));
    CutFile(frames + [frame], cut);
    if n == 0 {
      assert frames + [frame][..0] == frames;
      if left == RecordFor(frame) {
        assert all[..cut] == all;
        ReadBack(frames + [frame]);
      }
    } else {
      assert frames + [frame][..1] == frames + [frame];
      FileCanonical(all[..cut], frames + [frame], |all|);
    }
  }

  lemma LastFrame(frames: seq<CommitFrame>, frame: CommitFrame)
    ensures FileBytes(frames + [frame]) == FileBytes(frames) + RecordFor(frame)
  {
    hide EncodePayload, Record;
    FileBytesConcat(frames, [frame]);
    assert Payloads([frame]) == [EncodePayload(frame)];
    assert [EncodePayload(frame)][1..] == [];
  }

  /** A file reads as a history, and then as what the bytes behind it hold. */
  lemma ScanBehindHistory(frames: seq<CommitFrame>, behind: seq<byte>)
    requires History(frames)
    ensures DecodeFile(FileBytes(frames) + behind)
         == Read(Shifted(ScanFrom(FRAME_MAGIC, AcceptFrame, behind, frames, 0), |FileBytes(frames)|))
  {
    hide ScanFrom, DecodeFile, History, EncodePayload, Payloads, FileHeader, Records, Accepted;
    HistoryIsAccepted(frames);
    ScanPast(FRAME_MAGIC, AcceptFrame, FileHeader(), [], frames, Payloads(frames), behind);
    HeaderIsRead(FileBytes(frames) + behind);
    assert [] + frames == frames;
    ScanBehind(FRAME_MAGIC, AcceptFrame, FileBytes(frames), behind, frames, 0);
  }

  /** Bytes behind a history, a record's prefix or more, that do not start with the magic of one make the file corrupt. */
  lemma ForeignBytesCorrupt(frames: seq<CommitFrame>, behind: seq<byte>)
    requires History(frames) && |behind| >= PREFIX_LEN && behind[..4] != FRAME_MAGIC
    ensures var bytes := FileBytes(frames) + behind; bytes != [] && DecodeFile(bytes).Read? && DecodeFile(bytes).scan.Corrupt?
  {
    hide ScanFrom, DecodeFile, History, FileBytes;
    ScanBehindHistory(frames, behind);
    NoMagic(frames, behind);
  }

  lemma NoMagic(frames: seq<CommitFrame>, behind: seq<byte>)
    requires |behind| >= PREFIX_LEN && behind[..4] != FRAME_MAGIC
    ensures ScanFrom(FRAME_MAGIC, AcceptFrame, behind, frames, 0) == Corrupt(0)
  {
    hide FromLittleEndian, Digest;
    assert behind[0..0 + 4] == behind[..4];
  }

  /** A failed append that leaves only part of its magic behind, followed by any append that succeeds: no later open
      reads the file, whatever was acknowledged. */
  lemma TornMagicLosesFile(frames: seq<CommitFrame>, left: seq<byte>, frame: CommitFrame, rest: seq<byte>,
                           schedule: nat -> Outcome, k: nat)
    requires History(frames) && left < FRAME_MAGIC && left != []
    ensures E.ColdOpenView(schedule, k, FileBytes(frames) + left + RecordFor(frame) + rest) == None
  {
    hide OpenRuns, History, DecodeFile, FileBytes;
    var behind := left + RecordFor(frame) + rest;
    assert FileBytes(frames) + left + RecordFor(frame) + rest == FileBytes(frames) + behind;
    SecondMagic(left, RecordFor(frame) + rest);
    assert left + (RecordFor(frame) + rest) == behind;
    ForeignBytesCorrupt(frames, behind);
  }

  lemma SecondMagic(left: seq<byte>, rest: seq<byte>)
    requires left < FRAME_MAGIC && left != [] && FRAME_MAGIC <= rest
    ensures (left + rest)[..4] != FRAME_MAGIC
  {
    assert (left + rest)[|left|] == rest[0] == FRAME_MAGIC[0];
    assert FRAME_MAGIC[|left|] != FRAME_MAGIC[0];
  }

  /** A whole record left behind, followed by an append that succeeds: the two name the same parent, so no later open
      reads the file, whatever was acknowledged. */
  lemma WholeRecordLosesFile(frames: seq<CommitFrame>, frame: CommitFrame, next: CommitFrame, rest: seq<byte>,
                             schedule: nat -> Outcome, k: nat)
    requires History(frames + [frame]) && Follows(frames, next) && Storable(next)
    requires |EncodePayload(next)| <= MAX_PAYLOAD
    ensures E.ColdOpenView(schedule, k, FileBytes(frames) + RecordFor(frame) + RecordFor(next) + rest) == None
  {
    hide OpenRuns, History, DecodeFile, FileBytes, EncodePayload, Record, Storable, Follows;
    LastFrame(frames, frame);
    var bytes := FileBytes(frames + [frame]) + (RecordFor(next) + rest);
    assert bytes == FileBytes(frames) + RecordFor(frame) + RecordFor(next) + rest;
    NotAfter(frames, frame, next);
    RefusedFrameCorrupts(frames + [frame], next, rest);
  }

  lemma NotAfter(frames: seq<CommitFrame>, frame: CommitFrame, next: CommitFrame)
    requires History(frames + [frame]) && Follows(frames, next)
    ensures !Follows(frames + [frame], next)
  {
    hide EncodePayload, Storable;
    var all := frames + [frame];
    assert all[..|frames|] == frames && all[|frames|] == frame;
    assert Follows(all[..|frames|], all[|frames|]);
  }

  lemma RefusedFrameCorrupts(frames: seq<CommitFrame>, next: CommitFrame, rest: seq<byte>)
    requires History(frames) && !Follows(frames, next) && Storable(next) && |EncodePayload(next)| <= MAX_PAYLOAD
    ensures var bytes := FileBytes(frames) + (RecordFor(next) + rest);
      bytes != [] && DecodeFile(bytes).Read? && DecodeFile(bytes).scan.Corrupt?
  {
    hide ScanFrom, DecodeFile, History, EncodePayload, Payloads, FileHeader, Records;
    hide Record, Accepted, Storable, DecodePayload, Follows;
    var behind := RecordFor(next) + rest;
    ScanBehindHistory(frames, behind);
    WholeRecord(FRAME_MAGIC, AcceptFrame, behind, frames, 0, EncodePayload(next));
    PayloadRoundTrip(next);
  }

  /** A failed append that leaves its prefix behind, and then appends that do not make up for the bytes that are missing:
      the file opens without them. Whatever they were, acknowledged or not, they are trimmed as an incomplete tail. */
  lemma ShortAppendIsDropped(frames: seq<CommitFrame>, frame: CommitFrame, left: seq<byte>, rest: seq<byte>)
    requires History(frames) && |EncodePayload(frame)| <= MAX_PAYLOAD
    requires left <= RecordFor(frame) && PREFIX_LEN <= |left| && |left + rest| < |RecordFor(frame)|
    ensures DecodeFile(FileBytes(frames) + (left + rest)) == Read(Scan(frames, |FileBytes(frames)|))
  {
    hide ScanFrom, DecodeFile, History, EncodePayload, FileBytes, Record, FromLittleEndian, Digest;
    var behind, record := left + rest, RecordFor(frame);
    ScanBehindHistory(frames, behind);
    RecordParts(FRAME_MAGIC, EncodePayload(frame));
    assert behind[0..4] == left[0..4] == record[..4] && behind[4..12] == left[4..12] == record[4..12];
    CutShort(frames, behind, |EncodePayload(frame)|);
  }

  lemma CutShort(frames: seq<CommitFrame>, behind: seq<byte>, n: nat)
    requires |behind| >= PREFIX_LEN && n <= MAX_PAYLOAD && |behind| < PREFIX_LEN + n + TRAILER_LEN
    requires behind[0..4] == FRAME_MAGIC && FromLittleEndian(behind[4..12]) == n
    ensures ScanFrom(FRAME_MAGIC, AcceptFrame, behind, frames, 0) == Scan(frames, 0)
  {
    hide FromLittleEndian, Digest;
    assert behind[0 + 4..0 + 12] == behind[4..12] && behind[0..0 + 4] == behind[0..4];
  }

  // ---- Whole runs ----

  /** What a run of appends returns and leaves. */
  ghost function RunView(schedule: nat -> Outcome, v: FileView, attempts: seq<CommitFrame>): (seq<bool>, FileView)
    decreases |attempts|
  {
    if attempts == [] then ([], v)
    else
      var (appended, before) := RunView(schedule, v, attempts[..|attempts| - 1]);
      var (r, after) := AppendView(schedule, before, attempts[|attempts| - 1]);
      (appended + [r.Ok?], after)
  }

  /** No append of the run leaves bytes: a condition on its calls. */
  ghost predicate CleanRun(schedule: nat -> Outcome, v: FileView, attempts: seq<CommitFrame>)
    decreases |attempts|
  {
    if attempts == [] then true
    else
      var front, last := attempts[..|attempts| - 1], attempts[|attempts| - 1];
      var before := RunView(schedule, v, front).1;
      CleanRun(schedule, v, front) && !(Reaches(before, last) && LeavesBytes(schedule, before.calls, |RecordFor(last)|))
  }

  /** The bytes are those of the frames, with some more among them exactly when they should not be clean. */
  ghost predicate Accounted(v: FileView, clean: bool) {
    && Stored(v.frames) && |v.bytes| >= |FileBytes(v.frames)|
    && if clean then v.bytes == FileBytes(v.frames) else |v.bytes| > |FileBytes(v.frames)|
  }

  lemma AppendAccounts(schedule: nat -> Outcome, v: FileView, frame: CommitFrame, clean: bool)
    requires Accounted(v, clean) && Storable(frame)
    ensures Accounted(AppendView(schedule, v, frame).1,
                      clean && !(Reaches(v, frame) && LeavesBytes(schedule, v.calls, |RecordFor(frame)|)))
  {
    hide Stored, Follows, FileBytes, EncodePayload, Record, AppendRuns, Storable, Landed;
    if Reaches(v, frame) {
      OneMoreFrame(v.frames, frame);
      var record := RecordFor(frame);
      assert record[..|record|] == record && v.bytes + record[..0] == v.bytes;
    }
  }

  lemma {:induction false} RunAccounts(schedule: nat -> Outcome, v: FileView, attempts: seq<CommitFrame>)
    requires Stored(v.frames) && v.bytes == FileBytes(v.frames) && forall i :: 0 <= i < |attempts| ==>
      Storable(attempts[i])
    ensures Accounted(RunView(schedule, v, attempts).1, CleanRun(schedule, v, attempts))
    decreases |attempts|
  {
    hide Stored, FileBytes, Storable, AppendView, LeavesBytes, RecordFor, Reaches;
    if attempts != [] {
      var front := attempts[..|attempts| - 1];
      RunAccounts(schedule, v, front);
      hide Accounted;
      AppendAccounts(schedule, RunView(schedule, v, front).1, attempts[|attempts| - 1], CleanRun(schedule, v, front));
    }
  }

  /** After any run of appends the file reads to its end as the acknowledged frames if and only if every append that
      failed had written nothing or was truncated. */
  lemma RunReadsBack(schedule: nat -> Outcome, v: FileView, attempts: seq<CommitFrame>)
    requires Stored(v.frames) && v.bytes == FileBytes(v.frames) && forall i :: 0 <= i < |attempts| ==>
      Storable(attempts[i])
    ensures var after := RunView(schedule, v, attempts).1;
      && (after.bytes == FileBytes(after.frames) <==> CleanRun(schedule, v, attempts))
      && (Decodable(after.frames) ==>
            (DecodeFile(after.bytes) == Read(Scan(after.frames, |after.bytes|)) <==> CleanRun(schedule, v, attempts)))
  {
    hide FileBytes, Storable, RunView, CleanRun, Decodable, DecodeFile, Stored;
    RunAccounts(schedule, v, attempts);
    var after := RunView(schedule, v, attempts).1;
    if Decodable(after.frames) {
      ReadsBackExactly(after.frames, after.bytes);
    }
  }

  /** Over any run of appends under any schedule the store lists the frames that were there, then those whose append
      succeeded, in order; and if nothing is left of the failed ones, the file is exactly their encoding. */
  method RunAppends(store: FileCommitStore, attempts: seq<CommitFrame>) returns (appended: seq<bool>)
    requires store.Valid() && forall i :: 0 <= i < |attempts| ==> Storable(attempts[i])
    modifies store, store.io
    ensures store.Valid() && |appended| == |attempts|
    ensures store.frames == old(store.frames) + Acknowledged(attempts, appended)
    ensures (appended, store.View()) == RunView(store.io.schedule, old(store.View()), attempts)
    ensures store.Residue() == 0 ==> store.io.bytes == FileBytes(old(store.frames) + Acknowledged(attempts, appended))
    ensures store.Residue() >= old(store.Residue())
  {
    hide Stored, Storable, FileBytes, EncodePayload, Record, Follows, AppendRuns, AppendView, LeavesBytes;
    appended := [];
    assert store.frames + Acknowledged([], []) == store.frames;
    for i := 0 to |attempts|
      invariant store.Valid() && |appended| == i
      invariant store.frames == old(store.frames) + Acknowledged(attempts[..i], appended)
      invariant (appended, store.View()) == RunView(store.io.schedule, old(store.View()), attempts[..i])
      invariant store.Residue() >= old(store.Residue())
    {
      var r := store.Append(attempts[i]);
      assert attempts[..i + 1][..i] == attempts[..i] && (appended + [r.Ok?])[..i] == appended;
      appended := appended + [r.Ok?];
    }
    assert attempts[..|attempts|] == attempts;
  }

  function Acknowledged(attempts: seq<CommitFrame>, appended: seq<bool>): seq<CommitFrame>
    requires |attempts| == |appended|
    decreases |attempts|
  {
    if attempts == [] then []
    else
      var n := |attempts| - 1;
      Acknowledged(attempts[..n], appended[..n]) + if appended[n] then [attempts[n]] else []
  }

  // ---- A run that loses what it acknowledged ----

  /** An append whose sync and truncation both fail, and then any append that succeeds: the second is acknowledged, and no
      later open reads the file. */
  lemma FailedSyncLosesFile(schedule: nat -> Outcome, v: FileView, frame: CommitFrame, next: CommitFrame,
                            later: nat -> Outcome, k: nat)
    requires v.bytes == FileBytes(v.frames) && History(v.frames + [frame]) && Reaches(v, next) && Storable(next)
    requires var (written, sync) := WriteRuns(schedule, v.calls + 1, |RecordFor(frame)|);
      && schedule(v.calls).ok && written && !schedule(sync).ok && !Truncates(schedule(sync + 1))
      && AppendRuns(schedule, sync + 4, |RecordFor(next)|).0
    ensures var (appended, after) := RunView(schedule, v, [frame, next]);
      appended == [false, true] && after.frames == v.frames + [next] && E.ColdOpenView(later, k, after.bytes) == None
  {
    hide History, EncodePayload, Record, Storable, Follows, FileBytes, WriteRuns, Landed, E.ColdOpenView;
    LastReaches(v, frame);
    OneThenTwo(schedule, v, frame, next);
    var record, more := RecordFor(frame), RecordFor(next);
    assert record[..|record|] == record && more[..|more|] == more && |record| > 0;
    var first := AppendView(schedule, v, frame).1;
    assert first == FileView(v.frames, v.bytes + record, WriteRuns(schedule, v.calls + 1, |record|).1 + 4);
    var second := AppendView(schedule, first, next).1;
    assert second.bytes == v.bytes + record + more;
    WholeRecordLosesFile(v.frames, frame, next, [], later, k);
    assert second.bytes + [] == second.bytes;
  }

  lemma LastReaches(v: FileView, frame: CommitFrame)
    requires History(v.frames + [frame])
    ensures Reaches(v, frame)
  {
    hide EncodePayload, Storable;
    var all := v.frames + [frame];
    assert all[..|v.frames|] == v.frames && all[|v.frames|] == frame;
    assert Follows(all[..|v.frames|], all[|v.frames|]) && Persistable(all[|v.frames|]);
  }

  lemma OneThenTwo(schedule: nat -> Outcome, v: FileView, frame: CommitFrame, next: CommitFrame)
    ensures var (r, first) := AppendView(schedule, v, frame);
      var (q, second) := AppendView(schedule, first, next);
      RunView(schedule, v, [frame, next]) == ([r.Ok?, q.Ok?], second)
  {
    hide AppendView;
    var (r, first) := AppendView(schedule, v, frame);
    OneMoreAppend(schedule, v, [], frame);
    assert [] + [frame] == [frame] && [frame] + [next] == [frame, next];
    assert RunView(schedule, v, []) == ([], v) && [] + [r.Ok?] == [r.Ok?];
    assert RunView(schedule, v, [frame]) == ([r.Ok?], first);
    OneMoreAppend(schedule, v, [frame], next);
    var (q, second) := AppendView(schedule, first, next);
    assert [r.Ok?] + [q.Ok?] == [r.Ok?, q.Ok?];
  }

  lemma OneMoreAppend(schedule: nat -> Outcome, v: FileView, attempts: seq<CommitFrame>, frame: CommitFrame)
    ensures var (appended, before) := RunView(schedule, v, attempts);
      var (r, after) := AppendView(schedule, before, frame);
      RunView(schedule, v, attempts + [frame]) == (appended + [r.Ok?], after)
  {
    hide AppendView;
    assert (attempts + [frame])[..|attempts|] == attempts;
  }

  /** The first frame of a history, without operations. */
  const FRAME: CommitFrame := CommitFrame(GENESIS, 7, 0, 1, 1, [])

  /** The third call, a sync, fails, and so does the fourth, the truncation, without an effect. */
  const FAILING: nat -> Outcome := k => Outcome(k != 2 && k != 3, if k == 3 then 0 else U64, [])

  lemma FailingCalls(n: nat)
    requires 0 < n <= U64
    ensures FAILING(0).ok && WriteRuns(FAILING, 1, n) == (true, 2) && !FAILING(2).ok && !Truncates(FAILING(3))
    ensures AppendRuns(FAILING, 6, n).0
  {
    assert Least(FAILING(1).amount, n) == n && Least(FAILING(7).amount, n) == n;
    assert WriteRuns(FAILING, 2, 0) == (true, 2) && WriteRuns(FAILING, 8, 0) == (true, 8);
  }

  /** On an empty file one failed append and its retry are enough: the retry is acknowledged and the file is lost. */
  lemma RetryLosesFile(later: nat -> Outcome, k: nat)
    ensures var (appended, after) := RunView(FAILING, FileView([], FileHeader(), 0), [FRAME, FRAME]);
      appended == [false, true] && after.frames == [FRAME] && E.ColdOpenView(later, k, after.bytes) == None
  {
    FrameIsHistory();
    var v := FileView([], FileHeader(), 0);
    EmptyIsHeader();
    assert v.frames + [FRAME] == [FRAME];
    hide *;
    LastReaches(v, FRAME);
    RecordIsSmall(v, FRAME);
    FailingCalls(|RecordFor(FRAME)|);
    FailedSyncLosesFile(FAILING, v, FRAME, FRAME, later, k);
    assert [] + [FRAME] == [FRAME];
  }

  lemma EmptyIsHeader()
    ensures FileBytes([]) == FileHeader()
  {
    assert FileBytes([]) == FileHeader() + [];
  }

  lemma RecordIsSmall(v: FileView, frame: CommitFrame)
    requires Reaches(v, frame)
    ensures 0 < |RecordFor(frame)| < U64
  {
  }

  lemma FrameIsHistory()
    ensures History([FRAME]) && Storable(FRAME)
  {
    hide EncodeHeader;
    assert [FRAME][..0] == [];
    assert EncodeOperations([]) == [];
  }
}
