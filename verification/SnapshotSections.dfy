/** The ten sections of a snapshot file as bytes: string tables behind an offset directory, rows of fixed width,
    and the history of commit frames. */
module SnapshotSections {
  import opened Words
  import opened Facts
  import opened FrameOrder
  import opened Commits
  import opened FrameCodec
  import opened SortedIndex
  import opened Snapshot

  // ---- Rows of fixed width ----

  datatype Row<!T> = Row(width: nat, write: T -> seq<byte>, read: seq<byte> -> T)

  ghost predicate Fits<T(!new)>(row: Row<T>, x: T) {
    |row.write(x)| == row.width && row.read(row.write(x)) == x
  }

  function Written<T>(row: Row<T>, items: seq<T>): seq<byte> {
    if items == [] then [] else row.write(items[0]) + Written(row, items[1..])
  }

  /** Whole rows from the front; a remainder shorter than a row is not looked at. */
  function Rows<T>(row: Row<T>, s: seq<byte>): (items: seq<T>)
    requires row.width > 0
    decreases |s|
  {
    if |s| < row.width then [] else [row.read(s[..row.width])] + Rows(row, s[row.width..])
  }

  lemma {:induction false} RowsRoundTrip<T(!new)>(row: Row<T>, items: seq<T>)
    requires row.width > 0 && forall i :: 0 <= i < |items| ==> Fits(row, items[i])
    ensures |Written(row, items)| == |items| * row.width
    ensures Rows(row, Written(row, items)) == items
    decreases |items|
  {
    if items != [] {
      var first, rest := row.write(items[0]), items[1..];
      RowsRoundTrip(row, rest);
      OneMoreRow(|rest|, row.width);
      assert |items| == |rest| + 1 && Fits(row, items[0]);
      var all := first + Written(row, rest);
      assert all[..row.width] == first && all[row.width..] == Written(row, rest);
      assert [items[0]] + rest == items;
    }
  }

  lemma OneMoreRow(n: nat, width: nat)
    ensures (n + 1) * width == n * width + width
  {
  }

  /** Row `i` lies at `i` times the width. */
  lemma {:induction false} RowPlace<T>(row: Row<T>, s: seq<byte>, i: nat, at: nat)
    requires row.width > 0 && at == i * row.width && at + row.width <= |s|
    ensures i < |Rows(row, s)| && Rows(row, s)[i] == row.read(s[at..at + row.width])
    decreases i
  {
    if i > 0 {
      OneMoreRow(i - 1, row.width);
      var rest := s[row.width..];
      RowPlace(row, rest, i - 1, at - row.width);
      assert rest[at - row.width..at] == s[at..at + row.width];
    } else {
      assert at == 0;
    }
  }

  lemma {:induction false} RowCount<T>(row: Row<T>, s: seq<byte>, n: nat)
    requires row.width > 0 && |s| == n * row.width
    ensures |Rows(row, s)| == n
    decreases n
  {
    if n > 0 {
      OneMoreRow(n - 1, row.width);
      RowCount(row, s[row.width..], n - 1);
    }
  }

  /** A section of whole rows: reading row `i` where it lies is reading all rows and taking the `i`-th. */
  method ReadRow<T>(row: Row<T>, s: seq<byte>, i: nat) returns (item: Option<T>)
    requires row.width > 0
    ensures item.Some? <==> i * row.width + row.width <= |s|
    ensures item.Some? ==> i < |Rows(row, s)| && item.value == Rows(row, s)[i]
  {
    var start := i * row.width;
    if start + row.width > |s| {
      return None;
    }
    RowPlace(row, s, i, start);
    item := Some(row.read(s[start..start + row.width]));
  }

  method WriteRows<T>(row: Row<T>, items: seq<T>) returns (output: seq<byte>)
    ensures output == Written(row, items)
  {
    output := [];
    assert items[0..] == items;
    for i := 0 to |items|
      invariant output + Written(row, items[i..]) == Written(row, items)
    {
      assert items[i..][1..] == items[i + 1..];
      output := output + row.write(items[i]);
    }
  }

  // ---- The rows of a snapshot ----

  function WordRow(width: nat): (row: Row<nat>)
    ensures row.width == width
  {
    Row(width, v => LittleEndian(v, width), (s: seq<byte>) => FromLittleEndian(s))
  }

  lemma WordFits(width: nat, value: nat)
    requires value < Pow256(width)
    ensures Fits(WordRow(width), value)
  {
    LittleEndianRoundTrip(value, width);
  }

  const ZEROS4: seq<byte> := [0, 0, 0, 0]
  const ZEROS8: seq<byte> := [0, 0, 0, 0, 0, 0, 0, 0]

  function WriteRecord(r: MappedRecord): (bytes: seq<byte>)
    ensures |bytes| == 48
  {
    LittleEndian(r.originalId, 8) + LittleEndian(r.slot, 4) + LittleEndian(r.previous, 4) + LittleEndian(r.subject, 8)
      + LittleEndian(r.relation, 4) + ZEROS4 + LittleEndian(r.target, 8) + ZEROS8
  }

  function ReadRecord(s: seq<byte>): MappedRecord {
    if |s| != 48 then MappedRecord(0, 0, 0, 0, 0, 0)
    else MappedRecord(FromLittleEndian(s[0..8]), FromLittleEndian(s[8..12]), FromLittleEndian(s[12..16]),
                      FromLittleEndian(s[16..24]), FromLittleEndian(s[24..28]), FromLittleEndian(s[32..40]))
  }

  function RecordRow(): Row<MappedRecord> { Row(48, WriteRecord, ReadRecord) }

  predicate RecordInRange(r: MappedRecord) {
    r.originalId < U64 && r.slot < U32 && r.previous < U32 && r.subject < U64 && r.relation < U32 && r.target < U64
  }

  lemma RecordRowFits(r: MappedRecord)
    requires RecordInRange(r)
    ensures Fits(RecordRow(), r)
  {
    hide LittleEndian, FromLittleEndian;
    WordWidths();
    LittleEndianRoundTrip(r.originalId, 8);
    LittleEndianRoundTrip(r.slot, 4);
    LittleEndianRoundTrip(r.previous, 4);
    LittleEndianRoundTrip(r.subject, 8);
    LittleEndianRoundTrip(r.relation, 4);
    LittleEndianRoundTrip(r.target, 8);
    var s := WriteRecord(r);
    assert s[0..8] == LittleEndian(r.originalId, 8);
    assert s[8..12] == LittleEndian(r.slot, 4);
    assert s[12..16] == LittleEndian(r.previous, 4);
    assert s[16..24] == LittleEndian(r.subject, 8);
    assert s[24..28] == LittleEndian(r.relation, 4);
    assert s[32..40] == LittleEndian(r.target, 8);
  }

  function WriteIndexEntry(e: IndexEntry): (bytes: seq<byte>)
    ensures |bytes| == 32
  {
    LittleEndian(e.first, 8) + LittleEndian(e.second, 8) + LittleEndian(e.third, 8) + LittleEndian(e.record, 4) + ZEROS4
  }

  function ReadIndexEntry(s: seq<byte>): IndexEntry {
    if |s| != 32 then IndexEntry(0, 0, 0, 0)
    else IndexEntry(FromLittleEndian(s[0..8]), FromLittleEndian(s[8..16]), FromLittleEndian(s[16..24]), FromLittleEndian(s[24..28]))
  }

  function IndexRow(): Row<IndexEntry> { Row(32, WriteIndexEntry, ReadIndexEntry) }

  predicate EntryInRange(e: IndexEntry) { e.first < U64 && e.second < U64 && e.third < U64 && e.record < U32 }

  lemma IndexRowFits(e: IndexEntry)
    requires EntryInRange(e)
    ensures Fits(IndexRow(), e)
  {
    hide LittleEndian, FromLittleEndian;
    WordWidths();
    LittleEndianRoundTrip(e.first, 8);
    LittleEndianRoundTrip(e.second, 8);
    LittleEndianRoundTrip(e.third, 8);
    LittleEndianRoundTrip(e.record, 4);
    var s := WriteIndexEntry(e);
    assert s[0..8] == LittleEndian(e.first, 8);
    assert s[8..16] == LittleEndian(e.second, 8);
    assert s[16..24] == LittleEndian(e.third, 8);
    assert s[24..28] == LittleEndian(e.record, 4);
  }

  // ---- String tables ----

  function Joined(values: seq<Name>): seq<byte> {
    if values == [] then [] else Joined(values[..|values| - 1]) + values[|values| - 1]
  }

  /** Where each value starts in the joined bytes, and where the last one ends. */
  function Offsets(values: seq<Name>): (r: seq<nat>)
    ensures |r| == |values| + 1 && forall i :: 0 <= i < |r| ==> r[i] == |Joined(values[..i])|
  {
    seq(|values| + 1, i requires 0 <= i <= |values| => |Joined(values[..i])|)
  }

  function TableBytes(values: seq<Name>): seq<byte> {
    LittleEndian(|values|, 4) + ZEROS4 + Written(WordRow(8), Offsets(values)) + Joined(values)
  }

  predicate Directory(offsets: seq<nat>, size: nat) {
    && offsets != [] && offsets[0] == 0 && offsets[|offsets| - 1] == size
    && forall i :: 0 <= i < |offsets| - 1 ==> offsets[i] <= offsets[i + 1]
  }

  lemma {:induction false} DirectoryBounds(offsets: seq<nat>, size: nat, i: nat)
    requires Directory(offsets, size) && i < |offsets|
    ensures offsets[i] <= size
    decreases |offsets| - i
  {
    if i + 1 < |offsets| {
      DirectoryBounds(offsets, size, i + 1);
    }
  }

  function Pieces(blob: seq<byte>, offsets: seq<nat>): (values: seq<Name>)
    requires Directory(offsets, |blob|)
    ensures |values| == |offsets| - 1
  {
    assert forall i :: 0 <= i < |offsets| ==> offsets[i] <= |blob| by {
      forall i | 0 <= i < |offsets| ensures offsets[i] <= |blob| {
        DirectoryBounds(offsets, |blob|, i);
      }
    }
    seq(|offsets| - 1, i requires 0 <= i < |offsets| - 1 => blob[offsets[i]..offsets[i + 1]])
  }

  ghost predicate WellFormed(values: seq<Name>) {
    Strict(values) && forall i :: 0 <= i < |values| ==> ValidUtf8(values[i])
  }

  datatype Parts = Parts(offsets: seq<nat>, blob: seq<byte>)

  /** The offset directory and the bytes behind it, when the section has room for the directory it announces. */
  function PartsOf(s: seq<byte>): (r: Option<Parts>)
    ensures r.Some? ==> r.value.offsets != []
  {
    if |s| < 8 then None
    else
      var start := 16 + 8 * FromLittleEndian(s[..4]);
      if start > |s| then None
      else
        RowPlace(WordRow(8), s[8..start], 0, 0);
        Some(Parts(Rows(WordRow(8), s[8..start]), s[start..]))
  }

  ghost function ParseTable(s: seq<byte>): Option<seq<Name>> {
    match PartsOf(s)
    case None => None
    case Some(parts) =>
      if !Directory(parts.offsets, |parts.blob|) || !WellFormed(Pieces(parts.blob, parts.offsets)) then None
      else Some(Pieces(parts.blob, parts.offsets))
  }

  lemma {:induction false} JoinedPrefix(values: seq<Name>, i: nat)
    requires i <= |values|
    ensures Joined(values[..i]) <= Joined(values)
    decreases |values|
  {
    if i < |values| {
      var front := values[..|values| - 1];
      assert front[..i] == values[..i];
      JoinedPrefix(front, i);
    } else {
      assert values[..i] == values;
    }
  }

  lemma PieceOfJoined(values: seq<Name>, i: nat)
    requires i < |values|
    ensures |Joined(values[..i])| <= |Joined(values[..i + 1])| <= |Joined(values)|
    ensures Joined(values)[|Joined(values[..i])|..|Joined(values[..i + 1])|] == values[i]
  {
    assert values[..i + 1][..i] == values[..i];
    assert Joined(values[..i + 1]) == Joined(values[..i]) + values[i];
    JoinedPrefix(values, i + 1);
  }

  lemma OffsetsCut(values: seq<Name>)
    ensures Directory(Offsets(values), |Joined(values)|)
    ensures Pieces(Joined(values), Offsets(values)) == values
  {
    EmptyJoined();
    hide Joined;
    var offsets := Offsets(values);
    assert values[..|values|] == values && values[..0] == [];
    forall i | 0 <= i < |values| ensures offsets[i] <= offsets[i + 1] {
      PieceOfJoined(values, i);
    }
    forall i | 0 <= i < |values| ensures Pieces(Joined(values), offsets)[i] == values[i] {
      hide Directory;
      PieceOfJoined(values, i);
    }
  }

  lemma OffsetsInRange(values: seq<Name>, i: nat)
    requires i <= |values|
    ensures Offsets(values)[i] <= |Joined(values)|
  {
    JoinedPrefix(values, i);
  }

  /** A strictly sorted table of UTF-8 strings is read back from its bytes. */
  lemma TableRoundTrip(values: seq<Name>)
    requires WellFormed(values) && |values| < U32 && |Joined(values)| < U64
    ensures ParseTable(TableBytes(values)) == Some(values)
  {
    hide WellFormed, Pieces, Directory, LittleEndian, FromLittleEndian, Rows, Written, Joined;
    WordWidths();
    LittleEndianRoundTrip(|values|, 4);
    var offsets := Offsets(values);
    forall i | 0 <= i < |offsets| ensures Fits(WordRow(8), offsets[i]) {
      OffsetsInRange(values, i);
      WordFits(8, offsets[i]);
    }
    RowsRoundTrip(WordRow(8), offsets);
    OffsetsCut(values);
    var s, directory := TableBytes(values), Written(WordRow(8), offsets);
    assert s[..4] == LittleEndian(|values|, 4);
    assert s[8..8 + |directory|] == directory && s[8 + |directory|..] == Joined(values);
  }

  lemma ParsedIsWellFormed(s: seq<byte>)
    requires ParseTable(s).Some?
    ensures WellFormed(ParseTable(s).value)
  {
  }

  // ---- Checking a table neighbour by neighbour ----

  predicate Below(a: Name, b: Name) { a != b && NameLe(a, b) }

  ghost predicate Climbs(values: seq<Name>) {
    forall i :: 0 < i < |values| ==> Below(values[i - 1], values[i])
  }

  /** Comparing neighbours is enough, since the order is transitive. */
  lemma {:induction false} ClimbingIsStrict(values: seq<Name>)
    ensures Climbs(values) <==> Strict(values)
    decreases |values|
  {
    if |values| > 0 {
      var front := values[..|values| - 1];
      ClimbingIsStrict(front);
      if Climbs(values) {
        assert Climbs(front) by {
          assert forall i :: 0 <= i < |front| ==> front[i] == values[i];
        }
        forall i | 0 <= i < |values| - 1 ensures Below(values[i], values[|values| - 1]) {
          NameLeTotal();
          var middle := values[|values| - 2];
          assert Below(middle, values[|values| - 1]);
          assert i < |values| - 2 ==> front[i] != front[|values| - 2] && NameLe(front[i], front[|values| - 2]);
        }
        forall i, j | 0 <= i < j < |values| ensures Below(values[i], values[j]) {
          assert j < |values| - 1 ==> front[i] == values[i] && front[j] == values[j];
        }
      }
    }
  }

  method ReadTable(s: seq<byte>) returns (table: Option<seq<Name>>)
    ensures table == ParseTable(s)
  {
    hide Strict, ValidUtf8, NameLe, Rows, FromLittleEndian;
    if |s| < 8 {
      return None;
    }
    var count := FromLittleEndian(s[..4]);
    var start := 16 + 8 * count;
    if start > |s| {
      return None;
    }
    var parts := PartsOf(s).value;
    var offsets, blob := parts.offsets, parts.blob;
    if offsets[0] != 0 || offsets[|offsets| - 1] != |blob| {
      return None;
    }
    for i := 1 to |offsets|
      invariant forall k :: 0 <= k < i - 1 ==> offsets[k] <= offsets[k + 1]
    {
      if offsets[i - 1] > offsets[i] {
        assert !(offsets[i - 1] <= offsets[i - 1 + 1]);
        return None;
      }
    }
    var values := Pieces(blob, offsets);
    hide PartsOf, Pieces, Directory;
    ClimbingIsStrict(values);
    for i := 0 to |values|
      invariant forall k :: 0 <= k < i ==> ValidUtf8(values[k])
      invariant forall k :: 0 < k < i ==> Below(values[k - 1], values[k])
    {
      if !ValidUtf8(values[i]) {
        return None;
      }
      if i > 0 && !Below(values[i - 1], values[i]) {
        return None;
      }
    }
    table := Some(values);
  }

  method WriteTable(values: seq<Name>) returns (output: seq<byte>)
    ensures output == TableBytes(values)
  {
    hide LittleEndian, Joined;
    var offsets: seq<nat>, offset: nat := [0], 0;
    EmptyJoined();
    assert values[..0] == [];
    for i := 0 to |values|
      invariant |offsets| == i + 1 && offset == |Joined(values[..i])|
      invariant forall k :: 0 <= k <= i ==> offsets[k] == |Joined(values[..k])|
    {
      OneMoreJoined(values, i);
      offset := offset + |values[i]|;
      offsets := offsets + [offset];
    }
    assert offsets == Offsets(values);
    var directory := WriteRows(WordRow(8), offsets);
    output := LittleEndian(|values|, 4) + ZEROS4 + directory;
    var blob: seq<byte> := [];
    for i := 0 to |values|
      invariant blob == Joined(values[..i])
    {
      OneMoreJoined(values, i);
      blob := blob + values[i];
    }
    assert values[..|values|] == values;
    output := output + blob;
  }

  lemma EmptyJoined()
    ensures Joined([]) == []
  {
  }

  lemma OneMoreJoined(values: seq<Name>, i: nat)
    requires i < |values|
    ensures Joined(values[..i + 1]) == Joined(values[..i]) + values[i]
  {
    assert values[..i + 1][..i] == values[..i];
  }

  // ---- The history ----

  function FrameBytes(f: CommitFrame): seq<byte> {
    EncodeHeader(HeaderOf(f), 4) + EncodeOperations(f.operations, 4)
  }

  function FramesBytes(frames: seq<CommitFrame>): seq<byte> {
    if frames == [] then [] else FrameBytes(frames[0]) + FramesBytes(frames[1..])
  }

  function HistoryBytes(frames: seq<CommitFrame>): seq<byte> {
    EncodeU64(|frames|) + FramesBytes(frames)
  }

  function ParseFrame(s: seq<byte>): Parse<CommitFrame> {
    match ParseHeader(s, 4)
    case Bad => Bad
    case Got(h, s1) =>
      match ParseOperations(h.operationCount, s1, 4)
      case Bad => Bad
      case Got(ops, rest) =>
        Got(CommitFrame(h.parentWorld, h.resultingWorld, h.parentVersion, h.resultingVersion, h.resultingAllocator, ops), rest)
  }

  function ParseFrames(n: nat, s: seq<byte>): Parse<seq<CommitFrame>> {
    if n == 0 then Got([], s)
    else match ParseFrame(s)
      case Bad => Bad
      case Got(f, s1) =>
        match ParseFrames(n - 1, s1)
        case Bad => Bad
        case Got(fs, rest) => Got([f] + fs, rest)
  }

  function DecodeHistory(s: seq<byte>): Option<seq<CommitFrame>> {
    match ParseU64(s)
    case Bad => None
    case Got(n, s1) =>
      match ParseFrames(n, s1)
      case Bad => None
      case Got(frames, rest) => if rest == [] then Some(frames) else None
  }

  lemma FrameRoundTrip(f: CommitFrame, rest: seq<byte>)
    requires Storable(f, 4)
    ensures ParseFrame(FrameBytes(f) + rest) == Got(f, rest)
  {
    hide ParseHeader, ParseOperations, EncodeHeader, EncodeOperations, StorableOperation;
    var s := EncodeOperations(f.operations, 4) + rest;
    assert FrameBytes(f) + rest == EncodeHeader(HeaderOf(f), 4) + s;
    ParseHeaderRoundTrip(HeaderOf(f), s, 4);
    ParseOperationsRoundTrip(f.operations, rest, 4);
  }

  lemma {:induction false} FramesRoundTrip(frames: seq<CommitFrame>)
    requires forall i :: 0 <= i < |frames| ==> Storable(frames[i], 4)
    ensures ParseFrames(|frames|, FramesBytes(frames)) == Got(frames, [])
    decreases |frames|
  {
    hide ParseFrame, FrameBytes, Storable;
    if frames != [] {
      FrameRoundTrip(frames[0], FramesBytes(frames[1..]));
      FramesRoundTrip(frames[1..]);
      assert [frames[0]] + frames[1..] == frames;
    }
  }

  lemma HistoryRoundTrip(frames: seq<CommitFrame>)
    requires |frames| < U64 && forall i :: 0 <= i < |frames| ==> Storable(frames[i], 4)
    ensures DecodeHistory(HistoryBytes(frames)) == Some(frames)
  {
    hide Storable, ParseU64, ParseFrames, EncodeU64;
    ParseU64RoundTrip(|frames|, FramesBytes(frames));
    FramesRoundTrip(frames);
  }

  lemma FrameCanonical(s: seq<byte>)
    requires ParseFrame(s).Got?
    ensures Storable(ParseFrame(s).value, 4) && s == FrameBytes(ParseFrame(s).value) + ParseFrame(s).rest
  {
    hide ParseHeader, ParseOperations, EncodeHeader, EncodeOperations, StorableOperation;
    ParseHeaderCanonical(s, 4);
    var Got(h, s1) := ParseHeader(s, 4);
    ParseOperationsCanonical(h.operationCount, s1, 4);
    var Got(f, rest) := ParseFrame(s);
    assert s == EncodeHeader(h, 4) + (EncodeOperations(f.operations, 4) + rest);
  }

  lemma {:induction false} FramesCanonical(n: nat, s: seq<byte>)
    requires ParseFrames(n, s).Got?
    ensures var Got(frames, rest) := ParseFrames(n, s);
      |frames| == n && s == FramesBytes(frames) + rest && forall i :: 0 <= i < n ==> Storable(frames[i], 4)
    decreases n
  {
    hide ParseFrame, FrameBytes, Storable;
    if n > 0 {
      FrameCanonical(s);
      var Got(f, s1) := ParseFrame(s);
      FramesCanonical(n - 1, s1);
      var Got(fs, rest) := ParseFrames(n - 1, s1);
      assert ([f] + fs)[1..] == fs;
      assert s == FrameBytes(f) + (FramesBytes(fs) + rest);
    }
  }

  /** The history section is canonical: whatever decodes is the encoding of what it decodes to. */
  lemma HistoryCanonical(s: seq<byte>)
    requires DecodeHistory(s).Some?
    ensures var frames := DecodeHistory(s).value;
      HistoryBytes(frames) == s && forall i :: 0 <= i < |frames| ==> Storable(frames[i], 4)
  {
    hide Storable, ParseU64, ParseFrames, EncodeU64, FramesBytes;
    ParseU64Canonical(s);
    var Got(n, s1) := ParseU64(s);
    FramesCanonical(n, s1);
    var frames := DecodeHistory(s).value;
    assert FramesBytes(frames) + [] == FramesBytes(frames);
  }

  // ---- What the encoder refuses ----

  predicate ShortText(text: Name) { |text| < U32 }

  predicate ShortAtom(atom: Atom) { atom.Literal? ==> ShortText(atom.text) }

  predicate ShortOperation(op: Operation) {
    match op
    case AllocateEntity(_) => true
    case Define(slot, fact) => ShortText(slot) && ShortAtom(fact.subject) && ShortText(fact.relation) && ShortAtom(fact.target)
    case Forget(slot) => ShortText(slot)
  }

  predicate ShortFrame(f: CommitFrame) {
    |f.operations| < U32 && forall i :: 0 <= i < |f.operations| ==> ShortOperation(f.operations[i])
  }

  /** A frame the stores can hold fits a snapshot exactly when no count or string needs more than 32 bits. */
  lemma ShortIsStorable(f: CommitFrame)
    requires Storable(f)
    ensures ShortFrame(f) <==> Storable(f, 4)
  {
    hide ValidUtf8;
    WordWidths();
    forall i | 0 <= i < |f.operations| ensures ShortOperation(f.operations[i]) <==> StorableOperation(f.operations[i], 4) {
      assert StorableOperation(f.operations[i]);
    }
  }

  method EncodeHistory(frames: seq<CommitFrame>) returns (output: Option<seq<byte>>)
    ensures output == if forall i :: 0 <= i < |frames| ==>
      ShortFrame(frames[i]) then Some(HistoryBytes(frames)) else None
  {
    hide FrameBytes, ShortFrame, EncodeU64;
    var bytes := EncodeU64(|frames|);
    assert frames[0..] == frames;
    for i := 0 to |frames|
      invariant bytes + FramesBytes(frames[i..]) == HistoryBytes(frames)
      invariant forall k :: 0 <= k < i ==> ShortFrame(frames[k])
    {
      var one := EncodeFrame(frames[i]);
      if one.None? {
        return None;
      }
      assert frames[i..][1..] == frames[i + 1..];
      bytes := bytes + one.value;
    }
    assert frames[|frames|..] == [] && bytes + [] == bytes;
    output := Some(bytes);
  }

  method EncodeFrame(f: CommitFrame) returns (output: Option<seq<byte>>)
    ensures output == if ShortFrame(f) then Some(FrameBytes(f)) else None
  {
    hide EncodeHeader, EncodeOperation, ShortOperation;
    if |f.operations| >= U32 {
      return None;
    }
    var bytes := EncodeHeader(HeaderOf(f), 4);
    assert f.operations[0..] == f.operations;
    for i := 0 to |f.operations|
      invariant bytes + EncodeOperations(f.operations[i..], 4) == FrameBytes(f)
      invariant forall k :: 0 <= k < i ==> ShortOperation(f.operations[k])
    {
      if !ShortOperation(f.operations[i]) {
        return None;
      }
      assert f.operations[i..][1..] == f.operations[i + 1..];
      bytes := bytes + EncodeOperation(f.operations[i], 4);
    }
    assert f.operations[|f.operations|..] == [] && bytes + [] == bytes;
    output := Some(bytes);
  }

  method ReadHistory(s: seq<byte>) returns (frames: Option<seq<CommitFrame>>)
    ensures frames == DecodeHistory(s)
  {
    hide ParseU64, ParseHeader, ParseOperations;
    var decoder := new Decoder(s);
    var count := decoder.ReadU64();
    if count.None? {
      return None;
    }
    var done: seq<CommitFrame> := [];
    ghost var all := ParseFrames(count.value, decoder.Rest());
    NothingBefore(all);
    for i := 0 to count.value
      invariant decoder.Valid() && fresh(decoder) && decoder.bytes == s
      invariant all == Ahead(done, ParseFrames(count.value - i, decoder.Rest()))
    {
      ParseFramesStep(count.value - i, decoder.Rest(), done);
      hide ParseFrames, Ahead, ParseFrame;
      var frame := NextFrame(decoder);
      if frame.None? {
        return None;
      }
      done := done + [frame.value];
    }
    assert done + [] == done;
    frames := if decoder.position == |s| then Some(done) else None;
  }

  method NextFrame(decoder: Decoder) returns (frame: Option<CommitFrame>)
    requires decoder.Valid()
    modifies decoder
    ensures decoder.Valid()
    ensures match ParseFrame(old(decoder.Rest()))
      case Bad => frame == None
      case Got(f, rest) => frame == Some(f) && decoder.Rest() == rest
  {
    hide ParseHeader, ParseOperations;
    var header := decoder.ReadHeader(4);
    if header.None? {
      return None;
    }
    var h := header.value;
    var operations := decoder.ReadOperations(h.operationCount, 4);
    if operations.None? {
      return None;
    }
    frame := Some(CommitFrame(h.parentWorld, h.resultingWorld, h.parentVersion, h.resultingVersion, h.resultingAllocator,
                              operations.value));
  }

  function Ahead(done: seq<CommitFrame>, parsed: Parse<seq<CommitFrame>>): Parse<seq<CommitFrame>> {
    match parsed case Bad => Bad case Got(frames, rest) => Got(done + frames, rest)
  }

  lemma NothingBefore(parsed: Parse<seq<CommitFrame>>)
    ensures Ahead([], parsed) == parsed
  {
    assert parsed.Got? ==> [] + parsed.value == parsed.value;
  }

  lemma ParseFramesStep(n: nat, s: seq<byte>, done: seq<CommitFrame>)
    requires n > 0
    ensures match ParseFrame(s)
      case Bad => ParseFrames(n, s) == Bad
      case Got(f, s1) => Ahead(done, ParseFrames(n, s)) == Ahead(done + [f], ParseFrames(n - 1, s1))
  {
    hide ParseFrame;
    match ParseFrame(s)
    case Bad =>
    case Got(f, s1) =>
      match ParseFrames(n - 1, s1)
      case Bad =>
      case Got(fs, _) => assert done + ([f] + fs) == (done + [f]) + fs;
  }
}
