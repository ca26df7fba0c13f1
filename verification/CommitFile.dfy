/** The commit log file: a header and one record per frame, each continuing the one before it. */
module CommitFile {
  import opened Words
  import opened Facts
  import opened Commits
  import opened Framing
  import opened FrameCodec

  const GENESIS: nat := FNV_OFFSET_BASIS

  // "FTHDB001", version 1, no flags
  const FILE_MAGIC: seq<byte> := [0x46, 0x54, 0x48, 0x44, 0x42, 0x30, 0x30, 0x31]
  const FILE_VERSION: nat := 1
  const FILE_FLAGS: nat := 0
  const HEADER_LEN: nat := 16

  // "FRM1"
  const FRAME_MAGIC: seq<byte> := [0x46, 0x52, 0x4D, 0x31]

  function FileHeader(): (r: seq<byte>)
    ensures |r| == HEADER_LEN
  {
    FILE_MAGIC + LittleEndian(FILE_VERSION, 4) + LittleEndian(FILE_FLAGS, 4)
  }

  // ---- Linear histories ----

  function TipWorld(frames: seq<CommitFrame>): nat {
    if frames == [] then GENESIS else frames[|frames| - 1].resultingWorld
  }

  function TipVersion(frames: seq<CommitFrame>): nat {
    if frames == [] then 0 else frames[|frames| - 1].resultingVersion
  }

  /** The frame continues the history: it names its tip as parent and the next version as its result. */
  predicate Follows(frames: seq<CommitFrame>, frame: CommitFrame) {
    && frame.parentWorld == TipWorld(frames)
    && frame.parentVersion == TipVersion(frames)
    && TipVersion(frames) + 1 < U64
    && frame.resultingVersion == TipVersion(frames) + 1
  }

  ghost predicate Linear(frames: seq<CommitFrame>) {
    forall i :: 0 <= i < |frames| ==> Follows(frames[..i], frames[i])
  }

  /** Frame `i` names the world before it, the genesis world at first, and versions count up from one. */
  ghost predicate LinkAt(frames: seq<CommitFrame>, i: nat)
    requires i < |frames|
  {
    && frames[i].parentWorld == (if i == 0 then FNV_OFFSET_BASIS else frames[i - 1].resultingWorld)
    && frames[i].parentVersion == i && frames[i].resultingVersion == i + 1 < U64
  }

  lemma LinkIsFollowing(frames: seq<CommitFrame>, i: nat)
    requires i < |frames| && (i > 0 ==> LinkAt(frames, i - 1))
    ensures LinkAt(frames, i) <==> Follows(frames[..i], frames[i])
  {
  }

  ghost predicate Links(frames: seq<CommitFrame>) {
    forall i :: 0 <= i < |frames| ==> LinkAt(frames, i)
  }

  lemma OneMoreLink(frames: seq<CommitFrame>)
    requires frames != []
    ensures var front, n := frames[..|frames| - 1], |frames| - 1;
      && (Links(frames) <==> Links(front) && LinkAt(frames, n))
      && (Linear(frames) <==> Linear(front) && Follows(front, frames[n]))
      && (Links(front) && n > 0 ==> LinkAt(frames, n - 1))
  {
    hide Follows;
    var front, n := frames[..|frames| - 1], |frames| - 1;
    forall i | 0 <= i < n ensures front[..i] == frames[..i] && (LinkAt(front, i) <==> LinkAt(frames, i)) {
    }
  }

  /** A linear history is such a chain. */
  lemma {:induction false} LinearExactly(frames: seq<CommitFrame>)
    ensures Linear(frames) <==> Links(frames)
    decreases |frames|
  {
    hide Follows, LinkAt, Linear, Links;
    if frames != [] {
      LinearExactly(frames[..|frames| - 1]);
      OneMoreLink(frames);
      if Links(frames[..|frames| - 1]) {
        LinkIsFollowing(frames, |frames| - 1);
      }
    } else {
      NoLinks();
    }
  }

  lemma NoLinks()
    ensures Linear([]) && Links([])
  {
  }

  /** The decoder's limits, which the encoder and the caller have to respect. */
  predicate Persistable(f: CommitFrame) {
    Storable(f) && |f.operations| <= MAX_OPERATIONS_PER_FRAME && |EncodePayload(f)| <= MAX_PAYLOAD
  }

  ghost predicate History(frames: seq<CommitFrame>) {
    Linear(frames) && forall i :: 0 <= i < |frames| ==> Persistable(frames[i])
  }

  // ---- The bytes ----

  function Payloads(frames: seq<CommitFrame>): (r: seq<seq<byte>>)
    ensures |r| == |frames|
    ensures forall i :: 0 <= i < |r| ==> r[i] == EncodePayload(frames[i])
  {
    seq(|frames|, i requires 0 <= i < |frames| => EncodePayload(frames[i]))
  }

  lemma PayloadsPrefix(frames: seq<CommitFrame>, m: nat)
    requires m <= |frames|
    ensures Payloads(frames[..m]) == Payloads(frames)[..m]
  {
    hide EncodePayload;
  }

  lemma PayloadsConcat(a: seq<CommitFrame>, b: seq<CommitFrame>)
    ensures Payloads(a + b) == Payloads(a) + Payloads(b)
  {
    hide EncodePayload;
  }

  function FileBytes(frames: seq<CommitFrame>): (r: seq<byte>)
    ensures |r| >= HEADER_LEN
  {
    FileHeader() + Records(FRAME_MAGIC, Payloads(frames))
  }

  function AcceptFrame(frames: seq<CommitFrame>, payload: seq<byte>): Option<CommitFrame> {
    match DecodePayload(payload)
    case None => None
    case Some(frame) => if Follows(frames, frame) then Some(frame) else None
  }

  datatype FileScan = InvalidHeader | UnsupportedFormat(version: nat) | Read(scan: Scan<CommitFrame>)

  function DecodeFile(bytes: seq<byte>): FileScan {
    if |bytes| < HEADER_LEN || bytes[..8] != FILE_MAGIC then InvalidHeader
    else if FromLittleEndian(bytes[8..12]) != FILE_VERSION then UnsupportedFormat(FromLittleEndian(bytes[8..12]))
    else if FromLittleEndian(bytes[12..16]) != FILE_FLAGS then InvalidHeader
    else Read(ScanFrom(FRAME_MAGIC, AcceptFrame, bytes, [], HEADER_LEN))
  }

  method ReadFile(bytes: seq<byte>) returns (file: FileScan)
    ensures file == DecodeFile(bytes)
  {
    if |bytes| < HEADER_LEN || bytes[..8] != FILE_MAGIC {
      return InvalidHeader;
    }
    var version := FromLittleEndian(bytes[8..12]);
    if version != FILE_VERSION {
      return UnsupportedFormat(version);
    }
    if FromLittleEndian(bytes[12..16]) != FILE_FLAGS {
      return InvalidHeader;
    }
    var scan := ScanRecords(FRAME_MAGIC, AcceptFrame, bytes, HEADER_LEN);
    file := Read(scan);
  }

  lemma HeaderIsRead(bytes: seq<byte>)
    requires FileHeader() <= bytes
    ensures DecodeFile(bytes) == Read(ScanFrom(FRAME_MAGIC, AcceptFrame, bytes, [], HEADER_LEN))
  {
    WordWidths();
    LittleEndianRoundTrip(FILE_VERSION, 4);
    LittleEndianRoundTrip(FILE_FLAGS, 4);
    var h := FileHeader();
    assert bytes[..16] == h;
    assert bytes[..8] == h[..8] == FILE_MAGIC;
    assert bytes[8..12] == h[8..12] == LittleEndian(FILE_VERSION, 4);
    assert bytes[12..16] == h[12..16] == LittleEndian(FILE_FLAGS, 4);
  }

  lemma ReadHasHeader(bytes: seq<byte>)
    requires DecodeFile(bytes).Read?
    ensures |bytes| >= HEADER_LEN && bytes[..HEADER_LEN] == FileHeader()
  {
    FromLittleEndianRoundTrip(bytes[8..12]);
    FromLittleEndianRoundTrip(bytes[12..16]);
    assert bytes[..16] == bytes[..8] + bytes[8..12] + bytes[12..16];
  }

  lemma HistoryIsAccepted(frames: seq<CommitFrame>)
    requires History(frames)
    ensures Accepted(AcceptFrame, [], frames, Payloads(frames))
  {
    hide DecodePayload, EncodePayload, Storable;
    forall i | 0 <= i < |frames|
      ensures |Payloads(frames)[i]| <= MAX_PAYLOAD
      ensures AcceptFrame([] + frames[..i], Payloads(frames)[i]) == Some(frames[i])
    {
      assert Persistable(frames[i]);
      PayloadRoundTrip(frames[i]);
      assert [] + frames[..i] == frames[..i];
      assert Follows(frames[..i], frames[i]);
    }
  }

  lemma AcceptedIsHistory(frames: seq<CommitFrame>, payloads: seq<seq<byte>>)
    requires Accepted(AcceptFrame, [], frames, payloads)
    ensures History(frames) && payloads == Payloads(frames)
  {
    hide DecodePayload, EncodePayload, Storable;
    forall i | 0 <= i < |frames|
      ensures Follows(frames[..i], frames[i]) && Persistable(frames[i]) && payloads[i] == Payloads(frames)[i]
    {
      assert AcceptFrame([] + frames[..i], payloads[i]) == Some(frames[i]);
      assert [] + frames[..i] == frames[..i];
      PayloadCanonical(payloads[i]);
    }
  }

  /** Cutting the file of a history at any byte at or past the header leaves exactly the frames that fit whole,
      with the last good offset at their end. */
  lemma CutFile(frames: seq<CommitFrame>, cut: nat)
    requires History(frames) && HEADER_LEN <= cut <= |FileBytes(frames)|
    ensures var m := Whole(Payloads(frames), cut - HEADER_LEN);
      && DecodeFile(FileBytes(frames)[..cut]) == Read(Scan(frames[..m], |FileBytes(frames[..m])|))
      && |FileBytes(frames[..m])| <= cut
      && (m < |frames| ==> |FileBytes(frames[..m + 1])| > cut)
  {
    hide ScanFrom, Records, DecodeFile, FileHeader, History, Payloads, EncodePayload, Whole, Accepted, AcceptFrame;
    var payloads, room := Payloads(frames), cut - HEADER_LEN;
    var m := Whole(payloads, room);
    HistoryIsAccepted(frames);
    CutScan(FRAME_MAGIC, AcceptFrame, FileHeader(), [], frames, payloads, room);
    WholeIsLargest(FRAME_MAGIC, payloads, room);
    var bytes := FileBytes(frames)[..cut];
    assert bytes == FileHeader() + Records(FRAME_MAGIC, payloads)[..room];
    HeaderIsRead(bytes);
    assert [] + frames[..m] == frames[..m];
    PayloadsPrefix(frames, m);
    if m < |frames| {
      PayloadsPrefix(frames, m + 1);
    }
  }

  lemma WholeOfAll(magic: seq<byte>, payloads: seq<seq<byte>>)
    requires |magic| == 4
    ensures Whole(payloads, |Records(magic, payloads)|) == |payloads|
    decreases |payloads|
  {
    if payloads != [] {
      WholeOfAll(magic, payloads[1..]);
    }
  }

  /** An uncut file reads back as its history. */
  lemma ReadBack(frames: seq<CommitFrame>)
    requires History(frames)
    ensures DecodeFile(FileBytes(frames)) == Read(Scan(frames, |FileBytes(frames)|))
  {
    hide DecodeFile, FileHeader, History, Records, Payloads, EncodePayload, Whole;
    var bytes := FileBytes(frames);
    CutFile(frames, |bytes|);
    WholeOfAll(FRAME_MAGIC, Payloads(frames));
    assert bytes[..|bytes|] == bytes && frames[..|frames|] == frames;
  }

  /** Whatever opens is a history, and the good part of the file is that history's encoding. */
  lemma FileCanonical(bytes: seq<byte>, frames: seq<CommitFrame>, offset: nat)
    requires DecodeFile(bytes) == Read(Scan(frames, offset))
    ensures History(frames) && offset <= |bytes| && bytes[..offset] == FileBytes(frames)
  {
    hide ScanFrom, Records, FileHeader, History;
    ReadHasHeader(bytes);
    var items, payloads := ScanCanonical(FRAME_MAGIC, AcceptFrame, bytes, [], HEADER_LEN);
    assert [] + items == items;
    AcceptedIsHistory(frames, payloads);
    assert bytes[..offset] == bytes[..HEADER_LEN] + bytes[HEADER_LEN..offset];
  }

  lemma AcceptsNext(frames: seq<CommitFrame>, frame: CommitFrame)
    requires History(frames + [frame])
    ensures |EncodePayload(frame)| <= MAX_PAYLOAD && AcceptFrame(frames, EncodePayload(frame)) == Some(frame)
  {
    hide DecodePayload, EncodePayload, Storable;
    var all := frames + [frame];
    assert all[..|frames|] == frames && all[|frames|] == frame;
    assert Persistable(all[|frames|]) && Follows(all[..|frames|], all[|frames|]);
    PayloadRoundTrip(frame);
  }

  /** A file reads exactly when its header is there, and then as the longest history it starts with: behind it lies an
      incomplete record, or something that neither is one nor continues the history, and the file is corrupt. */
  lemma ReadsExactly(bytes: seq<byte>) returns (frames: seq<CommitFrame>)
    ensures DecodeFile(bytes).Read? <==> FileHeader() <= bytes
    ensures DecodeFile(bytes).Read? ==>
      var scan := DecodeFile(bytes).scan;
      && History(frames) && scan.offset <= |bytes| && bytes[..scan.offset] == FileBytes(frames)
      && (scan.Scan? ==> scan.items == frames && Unfinished(FRAME_MAGIC, bytes[scan.offset..]))
      && (scan.Corrupt? ==> !Unfinished(FRAME_MAGIC, bytes[scan.offset..]))
    ensures DecodeFile(bytes).Read? && DecodeFile(bytes).scan.Corrupt? ==>
      forall frame :: History(frames + [frame]) ==>
        !(Record(FRAME_MAGIC, EncodePayload(frame)) <= bytes[DecodeFile(bytes).scan.offset..])
  {
    hide ScanFrom, Records, Record, FileHeader, History, EncodePayload, Unfinished, Accepted, AcceptFrame;
    frames := [];
    if FileHeader() <= bytes {
      HeaderIsRead(bytes);
      var payloads;
      frames, payloads := ScanStops(FRAME_MAGIC, AcceptFrame, bytes, [], HEADER_LEN);
      var scan := DecodeFile(bytes).scan;
      assert [] + frames == frames;
      AcceptedIsHistory(frames, payloads);
      assert bytes[..scan.offset] == bytes[..HEADER_LEN] + bytes[HEADER_LEN..scan.offset];
      assert bytes[..HEADER_LEN] == FileHeader();
      forall frame | scan.Corrupt? && History(frames + [frame])
        ensures !(Record(FRAME_MAGIC, EncodePayload(frame)) <= bytes[scan.offset..])
      {
        AcceptsNext(frames, frame);
      }
    } else if DecodeFile(bytes).Read? {
      ReadHasHeader(bytes);
    }
  }

  /** The version is reported exactly when the magic is right and it is another one. */
  lemma UnsupportedExactly(bytes: seq<byte>, version: nat)
    ensures DecodeFile(bytes) == UnsupportedFormat(version) <==>
      && |bytes| >= HEADER_LEN && bytes[..8] == FILE_MAGIC && version < U32 && version != FILE_VERSION
      && bytes[8..12] == LittleEndian(version, 4)
  {
    hide ScanFrom, LittleEndian, FromLittleEndian, Pow256;
    WordWidths();
    if |bytes| >= HEADER_LEN {
      FromLittleEndianRoundTrip(bytes[8..12]);
      if version < U32 {
        LittleEndianRoundTrip(version, 4);
      }
    }
  }

  /** After the incomplete tail has been cut off, opening again finds the same frames and trims nothing. */
  lemma SecondOpenTrimsNothing(bytes: seq<byte>, frames: seq<CommitFrame>, offset: nat)
    requires DecodeFile(bytes) == Read(Scan(frames, offset))
    ensures offset <= |bytes| && DecodeFile(bytes[..offset]) == Read(Scan(frames, offset))
    ensures offset == |bytes[..offset]|
  {
    FileCanonical(bytes, frames, offset);
    ReadBack(frames);
  }

  lemma {:induction false} RecordsConcat(magic: seq<byte>, a: seq<seq<byte>>, b: seq<seq<byte>>)
    requires |magic| == 4
    ensures Records(magic, a + b) == Records(magic, a) + Records(magic, b)
    decreases |a|
  {
    hide Record;
    if a == [] {
      assert a + b == b;
    } else {
      RecordsConcat(magic, a[1..], b);
      assert (a + b)[0] == a[0] && (a + b)[1..] == a[1..] + b;
    }
  }

  lemma FileBytesConcat(a: seq<CommitFrame>, b: seq<CommitFrame>)
    ensures FileBytes(a + b) == FileBytes(a) + Records(FRAME_MAGIC, Payloads(b))
  {
    hide Records, FileHeader, Payloads, EncodePayload;
    RecordsConcat(FRAME_MAGIC, Payloads(a), Payloads(b));
    PayloadsConcat(a, b);
  }

  lemma RecordsSplit(magic: seq<byte>, a: seq<seq<byte>>)
    requires |magic| == 4
    ensures a != [] ==> |Records(magic, a)| == |Record(magic, a[0])| + |Records(magic, a[1..])|
  {
    hide Record;
  }

  lemma {:induction false} WholeCoversFront(magic: seq<byte>, a: seq<seq<byte>>, b: seq<seq<byte>>, room: nat)
    requires |magic| == 4 && room >= |Records(magic, a)|
    ensures Whole(a + b, room) >= |a|
    decreases |a|
  {
    hide Record, Records;
    RecordsSplit(magic, a);
    if a != [] {
      assert (a + b)[1..] == a[1..] + b;
      WholeCoversFront(magic, a[1..], b, room - |Record(magic, a[0])|);
    }
  }

  /** A crash inside the write of an epoch recovers the old history and a prefix of the epoch. */
  lemma EpochCrash(old_frames: seq<CommitFrame>, epoch: seq<CommitFrame>, cut: nat)
    requires History(old_frames + epoch)
    requires |FileBytes(old_frames)| <= cut <= |FileBytes(old_frames + epoch)|
    ensures exists n | 0 <= n <= |epoch| :: DecodeFile(FileBytes(old_frames + epoch)[..cut])
                                        == Read(Scan(old_frames + epoch[..n], |FileBytes(old_frames + epoch[..n])|))
  {
    hide DecodeFile, History, Records, Payloads, EncodePayload, Whole;
    CutFile(old_frames + epoch, cut);
    var m := Whole(Payloads(old_frames + epoch), cut - HEADER_LEN);
    PayloadsConcat(old_frames, epoch);
    WholeCoversFront(FRAME_MAGIC, Payloads(old_frames), Payloads(epoch), cut - HEADER_LEN);
    var n := m - |old_frames|;
    assert (old_frames + epoch)[..m] == old_frames + epoch[..n];
  }

  // ---- Files written without the decoder's operation limit ----

  /** What the stores accept: a linear history of in-range frames whose payloads fit. They do not check the
      decoder's limit on operations. */
  ghost predicate Stored(frames: seq<CommitFrame>) {
    && Linear(frames)
    && forall i :: 0 <= i < |frames| ==> Storable(frames[i]) && |EncodePayload(frames[i])| <= MAX_PAYLOAD
  }

  predicate Decodable(frames: seq<CommitFrame>) {
    forall i :: 0 <= i < |frames| ==> |frames[i].operations| <= MAX_OPERATIONS_PER_FRAME
  }

  lemma {:induction false} ScanStored(front: seq<byte>, before: seq<CommitFrame>, frames: seq<CommitFrame>)
    requires Stored(before + frames)
    ensures var bytes := front + Records(FRAME_MAGIC, Payloads(frames));
      var scan := ScanFrom(FRAME_MAGIC, AcceptFrame, bytes, before, |front|);
      if Decodable(frames) then scan == Scan(before + frames, |bytes|) else scan.Corrupt?
    decreases |frames|
  {
    hide ScanFrom, Record, EncodePayload, DecodePayload, Storable, Follows, Payloads, AcceptFrame;
    var bytes := front + Records(FRAME_MAGIC, Payloads(frames));
    if frames == [] {
      NothingLeft(FRAME_MAGIC, AcceptFrame, bytes, before, |front|);
      assert before + frames == before;
    } else {
      var frame, rest := frames[0], frames[1..];
      var payload := EncodePayload(frame);
      var r, later := Record(FRAME_MAGIC, payload), Records(FRAME_MAGIC, Payloads(rest));
      assert frames == [frame] + rest;
      PayloadsConcat([frame], rest);
      assert Payloads(frames)[1..] == Payloads(rest);
      assert bytes == (front + r) + later;
      assert bytes[|front|..] == r + later;
      StoredNext(before, frame, rest);
      WholeRecord(FRAME_MAGIC, AcceptFrame, bytes, before, |front|, payload);
      if |frame.operations| <= MAX_OPERATIONS_PER_FRAME {
        ScanStored(front + r, before + [frame], rest);
        assert Decodable(frames) <==> Decodable(rest);
      }
    }
  }

  lemma StoredNext(before: seq<CommitFrame>, frame: CommitFrame, rest: seq<CommitFrame>)
    requires Stored(before + ([frame] + rest))
    ensures before + ([frame] + rest) == before + [frame] + rest
    ensures |EncodePayload(frame)| <= MAX_PAYLOAD
    ensures AcceptFrame(before, EncodePayload(frame)) == if |frame.operations| <= MAX_OPERATIONS_PER_FRAME then Some(frame) else None
  {
    hide EncodePayload, DecodePayload, Storable;
    var all, i := before + ([frame] + rest), |before|;
    assert all[i] == frame && all[..i] == before;
    assert Follows(all[..i], all[i]);
    PayloadRoundTrip(frame);
  }

  /** The file of a stored history reads back whole exactly when every frame is within the decoder's limit. */
  lemma StoredFileReads(frames: seq<CommitFrame>)
    requires Stored(frames)
    ensures Decodable(frames) ==> DecodeFile(FileBytes(frames)) == Read(Scan(frames, |FileBytes(frames)|))
    ensures !Decodable(frames) ==> DecodeFile(FileBytes(frames)).Read? && DecodeFile(FileBytes(frames)).scan.Corrupt?
  {
    hide DecodeFile, ScanFrom, Records, FileHeader, Stored, Decodable, Payloads;
    assert [] + frames == frames;
    ScanStored(FileHeader(), [], frames);
    HeaderIsRead(FileBytes(frames));
  }
}
