/** The snapshot file: ten sections behind a checked header. What is opened is what was created. */
module SnapshotFile {
  import opened Words
  import opened Facts
  import opened Orders
  import opened Store
  import opened Projection
  import opened Commits
  import opened FrameCodec
  import opened SortedIndex
  import opened Snapshot
  import opened SnapshotSections

  const SNAPSHOT_MAGIC: seq<byte> := [70, 84, 72, 86, 77, 83, 48, 49]
  const TRAILER: seq<byte> := [86, 77, 83, 69, 78, 68, 48, 49]
  const SNAPSHOT_VERSION: nat := 1
  const HEADER_LEN: nat := 320
  const SECTION_COUNT: nat := 10
  const MAX_SNAPSHOT: nat := 512 * 1024 * 1024

  // ---- Laying sections out ----

  datatype Span = Span(start: nat, length: nat)

  function Padding(at: nat): nat { (8 - at % 8) % 8 }

  function Zeros(n: nat): (r: seq<byte>)
    ensures |r| == n
  {
    seq(n, _ => 0)
  }

  /** Everything after offset `at`: each section at the next multiple of eight. */
  function Body(sections: seq<seq<byte>>, at: nat): seq<byte> {
    if sections == [] then []
    else Zeros(Padding(at)) + sections[0] + Body(sections[1..], at + Padding(at) + |sections[0]|)
  }

  function Spans(sections: seq<seq<byte>>, at: nat): (r: seq<Span>)
    ensures |r| == |sections|
  {
    if sections == [] then []
    else
      var start := at + Padding(at);
      [Span(start, |sections[0]|)] + Spans(sections[1..], start + |sections[0]|)
  }

  ghost predicate Ascending(spans: seq<Span>) {
    forall i, j :: 0 <= i < j < |spans| ==> spans[i].start + spans[i].length <= spans[j].start
  }

  predicate FoundIn(bytes: seq<byte>, span: Span, section: seq<byte>) {
    && span.length == |section| && span.start + span.length <= |bytes|
    && bytes[span.start..span.start + span.length] == section
  }

  lemma FirstSection(before: seq<byte>, sections: seq<seq<byte>>) returns (next: seq<byte>)
    requires sections != []
    ensures before + Body(sections, |before|) == next + Body(sections[1..], |next|)
    ensures |before| + |sections[0]| <= |next|
    ensures var spans := Spans(sections, |before|);
      && spans == [Span(|next| - |sections[0]|, |sections[0]|)] + Spans(sections[1..], |next|)
      && FoundIn(next, spans[0], sections[0])
  {
    var at := |before|;
    hide Padding;
    next := before + (Zeros(Padding(at)) + sections[0]);
    assert before + Body(sections, at) == next + Body(sections[1..], |next|);
    assert next[at + Padding(at)..] == sections[0];
  }

  lemma FoundLater(next: seq<byte>, whole: seq<byte>, span: Span, section: seq<byte>)
    requires FoundIn(next, span, section) && next <= whole
    ensures FoundIn(whole, span, section)
  {
    assert whole[..|next|] == next;
  }

  lemma StillAscending(first: Span, rest: seq<Span>, at: nat)
    requires Ascending(rest) && first.start + first.length <= at && forall i :: 0 <= i < |rest| ==> at <= rest[i].start
    ensures Ascending([first] + rest)
  {
  }

  /** Every section is found in its span, the spans ascend without overlap, and none leaves the body. */
  lemma {:induction false} BodyHolds(before: seq<byte>, sections: seq<seq<byte>>)
    ensures var spans := Spans(sections, |before|);
      && Ascending(spans)
      && forall i :: 0 <= i < |sections| ==>
        |before| <= spans[i].start && FoundIn(before + Body(sections, |before|), spans[i], sections[i])
    decreases |sections|
  {
    if sections != [] {
      var next := FirstSection(before, sections);
      hide Body, Spans;
      BodyHolds(next, sections[1..]);
      var spans, rest := Spans(sections, |before|), Spans(sections[1..], |next|);
      var whole := before + Body(sections, |before|);
      FoundLater(next, whole, spans[0], sections[0]);
      hide FoundIn;
      forall i | 0 <= i < |sections| ensures |before| <= spans[i].start && FoundIn(whole, spans[i], sections[i]) {
        if i > 0 {
          assert spans[i] == rest[i - 1] && sections[i] == sections[1..][i - 1];
        }
      }
      StillAscending(spans[0], rest, |next|);
    }
  }

  // ---- The header ----

  /** What the header records besides the layout. */
  datatype Metadata = Metadata(epochCount: nat, journalOffset: nat, journalDigest: nat, worldId: nat, worldVersion: nat,
                               nextEntity: nat, operationCount: nat, activeSlots: nat, recordCount: nat, frameCount: nat)

  function MetadataWords(meta: Metadata): (r: seq<nat>)
    ensures |r| == 10
  {
    [meta.epochCount, meta.journalOffset, meta.journalDigest, meta.worldId, meta.worldVersion, meta.nextEntity,
     meta.operationCount, meta.activeSlots, meta.recordCount, meta.frameCount]
  }

  function MetadataIn(words: seq<nat>): Metadata
    requires |words| >= 12
  {
    Metadata(words[2], words[3], words[4], words[5], words[6], words[7], words[8], words[9], words[10], words[11])
  }

  function SpanWords(spans: seq<Span>): (r: seq<nat>)
    ensures |r| == 2 * |spans|
  {
    if spans == [] then [] else SpanWords(spans[..|spans| - 1]) + [spans[|spans| - 1].start, spans[|spans| - 1].length]
  }

  function SpansIn(words: seq<nat>): (r: seq<Span>)
    requires |words| >= 32
    ensures |r| == SECTION_COUNT
  {
    seq(SECTION_COUNT, i requires 0 <= i < SECTION_COUNT => Span(words[12 + 2 * i], words[13 + 2 * i]))
  }

  lemma {:induction false} SpanWordsAt(spans: seq<Span>, i: nat)
    requires i < |spans|
    ensures SpanWords(spans)[2 * i] == spans[i].start && SpanWords(spans)[2 * i + 1] == spans[i].length
    decreases |spans|
  {
    if i < |spans| - 1 {
      SpanWordsAt(spans[..|spans| - 1], i);
    }
  }

  function HeaderWords(size: nat, digest: nat, meta: Metadata, spans: seq<Span>): (words: seq<nat>)
    requires |spans| == SECTION_COUNT
    ensures |words| == 38
  {
    [size, digest] + MetadataWords(meta) + SpanWords(spans) + [0, 0, 0, 0, 0, 0]
  }

  function HeaderBytes(words: seq<nat>): seq<byte> {
    SNAPSHOT_MAGIC + LittleEndian(SNAPSHOT_VERSION, 4) + LittleEndian(HEADER_LEN, 4) + Written(WordRow(8), words)
  }

  function FileBytes(meta: Metadata, sections: seq<seq<byte>>): seq<byte>
    requires |sections| == SECTION_COUNT
  {
    var rest := Body(sections, HEADER_LEN) + TRAILER;
    HeaderBytes(HeaderWords(HEADER_LEN + |rest|, Digest(rest), meta, Spans(sections, HEADER_LEN))) + rest
  }

  function WordsIn(bytes: seq<byte>): (words: seq<nat>)
    requires |bytes| >= HEADER_LEN
    ensures |words| == 38
  {
    RowCount(WordRow(8), bytes[16..HEADER_LEN], 38);
    Rows(WordRow(8), bytes[16..HEADER_LEN])
  }

  lemma HeaderReadsBack(words: seq<nat>, rest: seq<byte>)
    requires |words| == 38 && forall i :: 0 <= i < 38 ==> words[i] < U64
    ensures var bytes := HeaderBytes(words) + rest;
      && |HeaderBytes(words)| == HEADER_LEN && WordsIn(bytes) == words && bytes[..8] == SNAPSHOT_MAGIC
      && FromLittleEndian(bytes[8..12]) == SNAPSHOT_VERSION && FromLittleEndian(bytes[12..16]) == HEADER_LEN
      && bytes[HEADER_LEN..] == rest
  {
    hide LittleEndian, FromLittleEndian, Rows, Written;
    WordWidths();
    LittleEndianRoundTrip(SNAPSHOT_VERSION, 4);
    LittleEndianRoundTrip(HEADER_LEN, 4);
    forall i | 0 <= i < 38 ensures Fits(WordRow(8), words[i]) {
      WordFits(8, words[i]);
    }
    RowsRoundTrip(WordRow(8), words);
    var bytes := HeaderBytes(words) + rest;
    assert bytes[8..12] == LittleEndian(SNAPSHOT_VERSION, 4);
    assert bytes[12..16] == LittleEndian(HEADER_LEN, 4);
    assert bytes[16..HEADER_LEN] == Written(WordRow(8), words);
  }

  lemma HeaderParts(size: nat, digest: nat, meta: Metadata, spans: seq<Span>)
    requires |spans| == SECTION_COUNT
    ensures var words := HeaderWords(size, digest, meta, spans);
      words[0] == size && words[1] == digest && MetadataIn(words) == meta && SpansIn(words) == spans
  {
    var words := HeaderWords(size, digest, meta, spans);
    forall i | 0 <= i < SECTION_COUNT ensures SpansIn(words)[i] == spans[i] {
      SpanWordsAt(spans, i);
      assert words[12 + 2 * i] == SpanWords(spans)[2 * i] && words[13 + 2 * i] == SpanWords(spans)[2 * i + 1];
    }
  }

  // ---- Opening ----

  predicate Enveloped(bytes: seq<byte>) {
    && HEADER_LEN + |TRAILER| <= |bytes| <= MAX_SNAPSHOT
    && bytes[..8] == SNAPSHOT_MAGIC
    && FromLittleEndian(bytes[8..12]) == SNAPSHOT_VERSION && FromLittleEndian(bytes[12..16]) == HEADER_LEN
    && WordsIn(bytes)[0] == |bytes|
    && bytes[|bytes| - |TRAILER|..] == TRAILER
    && WordsIn(bytes)[1] == Digest(bytes[HEADER_LEN..])
  }

  /** The journal's prefix of the recorded length has the recorded digest. A journal that still starts with the bytes
      the snapshot was taken after does so, but so may another. */
  predicate FollowsJournal(meta: Metadata, journal: seq<byte>) {
    16 <= meta.journalOffset <= |journal| && Digest(journal[..meta.journalOffset]) == meta.journalDigest
  }

  predicate ByStart(a: Span, b: Span) { a.start <= b.start }

  predicate InsideFile(span: Span,
                       size: nat) { HEADER_LEN <= span.start && span.start + span.length + |TRAILER| <= size }

  predicate NoOverlap(ordered: seq<Span>) {
    forall i :: 0 <= i < |ordered| - 1 ==> ordered[i].start + ordered[i].length <= ordered[i + 1].start
  }

  predicate LaidOut(spans: seq<Span>, size: nat) {
    && (forall i :: 0 <= i < |spans| ==> InsideFile(spans[i], size))
    && NoOverlap(Sort(ByStart, spans))
  }

  function Cut(bytes: seq<byte>, spans: seq<Span>): (r: seq<seq<byte>>)
    requires forall i :: 0 <= i < |spans| ==> InsideFile(spans[i], |bytes|)
    ensures |r| == |spans|
  {
    seq(|spans|, i requires 0 <= i < |spans| =>
      assert InsideFile(spans[i], |bytes|);
      bytes[spans[i].start..spans[i].start + spans[i].length])
  }

  datatype Opened = Opened(meta: Metadata, image: Image, history: seq<byte>)

  /** Fixed-width sections hold whole rows, and as many as the metadata and the slot table say. */
  predicate CountsAgree(sections: seq<seq<byte>>, slots: nat, meta: Metadata)
    requires |sections| == SECTION_COUNT
  {
    && |sections[3]| % 48 == 0 && |sections[4]| == slots * 4 && |sections[5]| % 4 == 0
    && |sections[6]| % 32 == 0 && |sections[7]| % 32 == 0 && |sections[8]| % 32 == 0
    && |sections[5]| / 4 == meta.activeSlots
    && |sections[6]| / 32 == |sections[7]| / 32 == |sections[8]| / 32 == |sections[5]| / 4
    && |sections[9]| >= 8 && FromLittleEndian(sections[9][..8]) == meta.frameCount
  }

  function Assemble(sections: seq<seq<byte>>, slots: seq<Name>, predicates: seq<Name>, literals: seq<Name>): Image
    requires |sections| == SECTION_COUNT
  {
    Image(slots, predicates, literals, Rows(RecordRow(), sections[3]), Rows(WordRow(4), sections[4]), Rows(WordRow(4), sections[5]),
          Rows(IndexRow(), sections[6]), Rows(IndexRow(), sections[7]), Rows(IndexRow(), sections[8]))
  }

  ghost predicate IndexValid(m: Image, index: seq<IndexEntry>) {
    SortedByKey(index) && forall i :: 0 <= i < |index| ==> index[i].record < |m.records|
  }

  predicate HeadsFit(m: Image) {
    forall t :: 0 <= t < |m.heads| ==> m.heads[t] == NONE || m.heads[t] < |m.records|
  }

  predicate RecordsFit(m: Image) { forall i :: 0 <= i < |m.records| ==> RecordFits(m, i) }

  ghost predicate Validated(m: Image) {
    RecordsFit(m) && HeadsFit(m) && IndexValid(m, m.spo) && IndexValid(m, m.pos) && IndexValid(m, m.osp)
  }

  ghost function OpenSections(meta: Metadata, sections: seq<seq<byte>>): Option<Opened>
    requires |sections| == SECTION_COUNT
  {
    match (ParseTable(sections[0]), ParseTable(sections[1]), ParseTable(sections[2]))
    case (Some(slots), Some(predicates), Some(literals)) =>
      if !CountsAgree(sections, |slots|, meta) then None
      else
        var image := Assemble(sections, slots, predicates, literals);
        if Validated(image) then Some(Opened(meta, image, sections[9])) else None
    case _ => None
  }

  ghost function Open(bytes: seq<byte>, journal: seq<byte>): Option<Opened> {
    if !Enveloped(bytes) then None
    else
      var meta, spans := MetadataIn(WordsIn(bytes)), SpansIn(WordsIn(bytes));
      if !FollowsJournal(meta, journal) || !LaidOut(spans, |bytes|) then None
      else OpenSections(meta, Cut(bytes, spans))
  }

  // ---- Opening what was created ----

  function SectionsOf(m: Image, frames: seq<CommitFrame>): (r: seq<seq<byte>>)
    ensures |r| == SECTION_COUNT
  {
    SectionsWith(m, HistoryBytes(frames))
  }

  function SectionsWith(m: Image, history: seq<byte>): (r: seq<seq<byte>>)
    ensures |r| == SECTION_COUNT
  {
    [TableBytes(m.slots), TableBytes(m.predicates), TableBytes(m.literals),
     Written(RecordRow(), m.records), Written(WordRow(4), m.heads), Written(WordRow(4), m.active),
     Written(IndexRow(), m.spo), Written(IndexRow(), m.pos), Written(IndexRow(), m.osp), history]
  }

  predicate MetadataInRange(meta: Metadata) {
    forall i :: 0 <= i < 10 ==> MetadataWords(meta)[i] < U64
  }

  lemma {:induction false} SortedStays(spans: seq<Span>)
    requires Ascending(spans)
    ensures Sort(ByStart, spans) == spans
    decreases |spans|
  {
    if spans != [] {
      var first, rest := spans[0], spans[1..];
      assert Ascending(rest) by {
        assert forall i :: 0 <= i < |rest| ==> rest[i] == spans[i + 1];
      }
      SortedStays(rest);
      assert rest != [] ==> first.start + first.length <= rest[0].start;
      hide Ascending;
      assert spans == [first] + rest;
      StaysInFront(first, rest);
    }
  }

  lemma StaysInFront(first: Span, rest: seq<Span>)
    requires rest != [] ==> first.start + first.length <= rest[0].start
    ensures Insert(ByStart, first, rest) == [first] + rest
  {
  }

  lemma SpanWordsInRange(spans: seq<Span>, limit: nat, i: nat)
    requires forall k :: 0 <= k < |spans| ==> spans[k].start + spans[k].length <= limit
    requires i < 2 * |spans|
    ensures SpanWords(spans)[i] <= limit
  {
    var k := i / 2;
    assert i == 2 * k || i == 2 * k + 1;
    SpanWordsAt(spans, k);
    hide SpanWords;
    assert spans[k].start + spans[k].length <= limit;
  }

  lemma HeaderWordsInRange(size: nat, digest: nat, meta: Metadata, spans: seq<Span>, i: nat)
    requires |spans| == SECTION_COUNT && i < 38 && size < U64 && digest < U64 && MetadataInRange(meta)
    requires forall k :: 0 <= k < |spans| ==> spans[k].start + spans[k].length <= size
    ensures HeaderWords(size, digest, meta, spans)[i] < U64
  {
    hide MetadataWords, SpanWords;
    if 2 <= i < 12 {
      assert HeaderWords(size, digest, meta, spans)[i] == MetadataWords(meta)[i - 2];
    } else if 12 <= i < 32 {
      SpanWordsInRange(spans, size, i - 12);
      assert HeaderWords(size, digest, meta, spans)[i] == SpanWords(spans)[i - 12];
    }
  }

  /** The envelope gives back the metadata and the ten sections, and accepts exactly a journal whose prefix of the
      recorded length has the recorded digest. */
  lemma EnvelopeRoundTrip(meta: Metadata, sections: seq<seq<byte>>, journal: seq<byte>)
    requires |sections| == SECTION_COUNT && MetadataInRange(meta) && |FileBytes(meta, sections)| <= MAX_SNAPSHOT
    ensures Open(FileBytes(meta, sections), journal) == if FollowsJournal(meta, journal) then OpenSections(meta, sections) else None
  {
    hide OpenSections, Digest, HeaderBytes, FromLittleEndian, Body, FollowsJournal;
    hide Sort, MetadataIn, SpansIn, WordsIn, MetadataInRange;
    var rest, spans := Body(sections, HEADER_LEN) + TRAILER, Spans(sections, HEADER_LEN);
    var words := HeaderWords(HEADER_LEN + |rest|, Digest(rest), meta, spans);
    FileIsSmall(meta, sections);
    DigestBounded(rest);
    BodyHolds(Zeros(HEADER_LEN), sections);
    hide Spans, HeaderWords, Ascending, Zeros;
    forall i | 0 <= i < 38 ensures words[i] < U64 {
      HeaderWordsInRange(HEADER_LEN + |rest|, Digest(rest), meta, spans, i);
    }
    HeaderReadsBack(words, rest);
    HeaderParts(HEADER_LEN + |rest|, Digest(rest), meta, spans);
    SortedStays(spans);
    var bytes := FileBytes(meta, sections);
    AscendingIsLaidOut(spans, |bytes|);
    SectionsCut(bytes, sections);
  }

  lemma FileIsSmall(meta: Metadata, sections: seq<seq<byte>>)
    requires |sections| == SECTION_COUNT && |FileBytes(meta, sections)| <= MAX_SNAPSHOT
    ensures |Body(sections, HEADER_LEN) + TRAILER| <= MAX_SNAPSHOT
  {
  }

  lemma DigestBounded(bytes: seq<byte>)
    ensures Digest(bytes) < U64
  {
    DigestIsWord(FNV_OFFSET_BASIS, bytes);
  }

  lemma AscendingIsLaidOut(spans: seq<Span>, size: nat)
    requires Ascending(spans) && Sort(ByStart, spans) == spans
    requires forall i :: 0 <= i < |spans| ==> InsideFile(spans[i], size)
    ensures LaidOut(spans, size)
  {
  }

  lemma SectionsCut(bytes: seq<byte>, sections: seq<seq<byte>>)
    requires |bytes| >= HEADER_LEN && bytes[HEADER_LEN..] == Body(sections, HEADER_LEN) + TRAILER
    ensures var spans := Spans(sections, HEADER_LEN);
      (forall i :: 0 <= i < |spans| ==> InsideFile(spans[i], |bytes|)) && Cut(bytes, spans) == sections
  {
    var spans, body := Spans(sections, HEADER_LEN), Body(sections, HEADER_LEN);
    BodyHolds(bytes[..HEADER_LEN], sections);
    hide Body, Spans, Ascending;
    assert bytes == bytes[..HEADER_LEN] + body + TRAILER;
    forall i | 0 <= i < |spans|
      ensures InsideFile(spans[i], |bytes|)
      ensures bytes[spans[i].start..spans[i].start + spans[i].length] == sections[i]
    {
      assert bytes[..|bytes| - |TRAILER|] == bytes[..HEADER_LEN] + body;
    }
  }

  // ---- The sections of a created snapshot ----

  ghost predicate StoredStrings(m: Image) {
    forall name :: name in m.slots + m.predicates + m.literals ==> ValidUtf8(name)
  }

  /** An image whose rows fit their fields and pass every check that opening makes. */
  ghost predicate Writable(m: Image) {
    && WellFormed(m.slots) && WellFormed(m.predicates) && WellFormed(m.literals)
    && (forall i :: 0 <= i < |m.records| ==> RecordInRange(m.records[i]))
    && AllWords(m.heads) && AllWords(m.active)
    && AllEntries(m.spo) && AllEntries(m.pos) && AllEntries(m.osp)
    && |m.heads| == |m.slots| && |m.spo| == |m.pos| == |m.osp| == |m.active|
    && Validated(m)
  }

  predicate AllWords(words: seq<nat>) { forall i :: 0 <= i < |words| ==> words[i] < U32 }

  predicate AllEntries(index: seq<IndexEntry>) { forall i :: 0 <= i < |index| ==> EntryInRange(index[i]) }

  lemma RecordsReadBack(m: Image)
    requires forall i :: 0 <= i < |m.records| ==> RecordInRange(m.records[i])
    ensures var s := Written(RecordRow(), m.records); Rows(RecordRow(), s) == m.records && |s| == 48 * |m.records|
  {
    hide Fits, RecordRow;
    forall i | 0 <= i < |m.records| ensures Fits(RecordRow(), m.records[i]) {
      RecordRowFits(m.records[i]);
    }
    RecordWidth();
    RowsRoundTrip(RecordRow(), m.records);
  }

  lemma RecordWidth()
    ensures RecordRow().width == 48 && IndexRow().width == 32
  {
  }

  lemma WordsReadBack(words: seq<nat>)
    requires AllWords(words)
    ensures var s := Written(WordRow(4), words); Rows(WordRow(4), s) == words && |s| == 4 * |words|
  {
    hide Fits;
    WordWidths();
    forall i | 0 <= i < |words| ensures Fits(WordRow(4), words[i]) {
      WordFits(4, words[i]);
    }
    RowsRoundTrip(WordRow(4), words);
  }

  lemma IndexReadsBack(index: seq<IndexEntry>)
    requires AllEntries(index)
    ensures var s := Written(IndexRow(), index); Rows(IndexRow(), s) == index && |s| == 32 * |index|
  {
    hide Fits, IndexRow;
    forall i | 0 <= i < |index| ensures Fits(IndexRow(), index[i]) {
      IndexRowFits(index[i]);
    }
    RecordWidth();
    RowsRoundTrip(IndexRow(), index);
  }

  lemma IndexInRange(m: Image, section: Section)
    requires Sound(m) && IsIndexOf(m, section)
    ensures AllEntries(EntriesIn(m, section))
  {
    hide Sound, SortedByKey, EntryInRange;
    var index := EntriesIn(m, section);
    forall i | 0 <= i < |index| ensures EntryInRange(index[i]) {
      assert index[i] in index;
      KeyInRange(m, section, index[i]);
    }
  }

  lemma KeyInRange(m: Image, section: Section, e: IndexEntry)
    requires Sound(m) && e.record < |m.records| && KeyOf(e) == SectionKey(m.records[e.record], section)
    ensures EntryInRange(e)
  {
    assert RecordFits(m, e.record);
    assert KeyOf(e)[0] == e.first && KeyOf(e)[1] == e.second && KeyOf(e)[2] == e.third;
  }

  lemma IndexLength(m: Image, section: Section)
    requires Sound(m) && IsIndexOf(m, section)
    ensures |EntriesIn(m, section)| == |m.active|
  {
    var records := RecordsIn(EntriesIn(m, section));
    assert |multiset(records)| == |multiset(m.active)|;
  }

  lemma TablesReadBack(m: Image, history: seq<byte>)
    requires WellFormed(m.slots) && WellFormed(m.predicates) && WellFormed(m.literals)
    requires forall i :: 0 <= i < SECTION_COUNT ==> |SectionsWith(m, history)[i]| <= MAX_SNAPSHOT
    ensures ParseTable(TableBytes(m.slots)) == Some(m.slots)
    ensures ParseTable(TableBytes(m.predicates)) == Some(m.predicates)
    ensures ParseTable(TableBytes(m.literals)) == Some(m.literals)
  {
    hide WellFormed, TableBytes, ParseTable;
    var sections := SectionsWith(m, history);
    assert |sections[0]| <= MAX_SNAPSHOT && |sections[1]| <= MAX_SNAPSHOT && |sections[2]| <= MAX_SNAPSHOT;
    TableIsRead(m.slots);
    TableIsRead(m.predicates);
    TableIsRead(m.literals);
  }

  lemma TableIsRead(values: seq<Name>)
    requires WellFormed(values) && |TableBytes(values)| <= MAX_SNAPSHOT
    ensures ParseTable(TableBytes(values)) == Some(values)
  {
    hide WellFormed, ParseTable;
    TableLength(values);
    TableRoundTrip(values);
  }

  lemma TableLength(values: seq<Name>)
    ensures |TableBytes(values)| == 16 + 8 * |values| + |Joined(values)|
  {
    hide LittleEndian, Joined;
    forall i | 0 <= i < |Offsets(values)| ensures |WordRow(8).write(Offsets(values)[i])| == 8 {
    }
    WrittenLength(WordRow(8), Offsets(values));
  }

  lemma {:induction false} WrittenLength(row: Row<nat>, items: seq<nat>)
    requires row.width == 8 && forall i :: 0 <= i < |items| ==> |row.write(items[i])| == 8
    ensures |Written(row, items)| == 8 * |items|
    decreases |items|
  {
    if items != [] {
      WrittenLength(row, items[1..]);
    }
  }

  /** The history section counts its frames and says so in the metadata; nothing else is asked of it. */
  predicate CountsHistory(history: seq<byte>, meta: Metadata) {
    |history| >= 8 && FromLittleEndian(history[..8]) == meta.frameCount
  }

  lemma SectionsOpen(m: Image, history: seq<byte>, meta: Metadata)
    requires Writable(m)
    requires forall i :: 0 <= i < SECTION_COUNT ==> |SectionsWith(m, history)[i]| <= MAX_SNAPSHOT
    ensures OpenSections(meta, SectionsWith(m, history))
         == if meta.activeSlots == |m.active| && CountsHistory(history, meta) then Some(Opened(meta, m, history)) else None
  {
    hide TableBytes, ParseTable, WellFormed, Rows, Written, Validated;
    hide RecordRow, IndexRow, RecordInRange, AllWords, AllEntries;
    TablesReadBack(m, history);
    RecordsReadBack(m);
    WordsReadBack(m.heads);
    WordsReadBack(m.active);
    IndexReadsBack(m.spo);
    IndexReadsBack(m.pos);
    IndexReadsBack(m.osp);
  }

  /** The sections of a writable image open to that image, exactly when the metadata counts its active slots and its
      frames. */
  lemma SectionsRoundTrip(m: Image, frames: seq<CommitFrame>, meta: Metadata)
    requires Writable(m) && |frames| < U64
    requires forall i :: 0 <= i < SECTION_COUNT ==> |SectionsOf(m, frames)[i]| <= MAX_SNAPSHOT
    ensures OpenSections(meta, SectionsOf(m, frames))
         == if meta.activeSlots == |m.active| && meta.frameCount == |frames| then Some(Opened(meta, m, HistoryBytes(frames))) else None
  {
    hide SectionsWith, OpenSections, HistoryBytes, Writable;
    assert SectionsOf(m, frames) == SectionsWith(m, HistoryBytes(frames));
    SectionsOpen(m, HistoryBytes(frames), meta);
    HistoryCount(frames);
  }

  lemma ReferencesAreWords(m: Image)
    requires Sound(m)
    ensures AllWords(m.heads) && AllWords(m.active) && |m.heads| == |m.slots|
  {
  }

  lemma RecordsAreInRange(m: Image)
    requires Sound(m) && IdsInRange(m) && |m.slots| <= U32
    ensures forall i :: 0 <= i < |m.records| ==> RecordInRange(m.records[i])
  {
    forall i | 0 <= i < |m.records| ensures RecordInRange(m.records[i]) {
      assert RecordFits(m, i);
    }
  }

  lemma HistoryCount(frames: seq<CommitFrame>)
    requires |frames| < U64
    ensures |HistoryBytes(frames)| >= 8 && FromLittleEndian(HistoryBytes(frames)[..8]) == |frames|
  {
    hide FramesBytes;
    FieldRoundTrip(|frames|);
    assert HistoryBytes(frames)[..8] == EncodeU64(|frames|);
  }

  lemma RepresentedIsValid(m: Image, stacks: Stacks)
    requires Represents(m, stacks)
    ensures Validated(m)
  {
    hide Chain, Rising, Strict, SortedByKey, RecordFits;
  }

  /** An image that represents some stacks of UTF-8 strings can be written. */
  lemma RepresentedIsWritable(m: Image, stacks: Stacks)
    requires Represents(m, stacks) && StoredStrings(m) && IdsInRange(m) && |m.slots| <= U32
    ensures Writable(m)
  {
    hide Chain, Rising, Strict, ValidUtf8, Sound, IsIndexOf, RecordInRange, AllWords, AllEntries, IdsInRange, Validated;
    RecordsAreInRange(m);
    ReferencesAreWords(m);
    IndexInRange(m, SPO);
    IndexInRange(m, POS);
    IndexInRange(m, OSP);
    IndexLength(m, SPO);
    IndexLength(m, POS);
    IndexLength(m, OSP);
    RepresentedIsValid(m, stacks);
  }

  lemma SectionsAreSmall(m: Image, history: seq<byte>, meta: Metadata)
    requires |FileBytes(meta, SectionsWith(m, history))| <= MAX_SNAPSHOT
    ensures forall i :: 0 <= i < SECTION_COUNT ==> |SectionsWith(m, history)[i]| <= MAX_SNAPSHOT
  {
    var sections := SectionsWith(m, history);
    FileIsSmall(meta, sections);
    BodyHolds(Zeros(HEADER_LEN), sections);
    hide SectionsWith, Body, FileBytes, Ascending;
    forall i | 0 <= i < SECTION_COUNT ensures |sections[i]| <= MAX_SNAPSHOT {
      assert FoundIn(Zeros(HEADER_LEN) + Body(sections, HEADER_LEN), Spans(sections, HEADER_LEN)[i], sections[i]);
    }
  }

  /** Opening looks at the history's count and at nothing else in it: a writable image opens with any bytes as its
      history that start with the recorded count. */
  lemma AnyHistoryOpens(m: Image, history: seq<byte>, meta: Metadata, journal: seq<byte>)
    requires Writable(m) && MetadataInRange(meta)
    requires |FileBytes(meta, SectionsWith(m, history))| <= MAX_SNAPSHOT
    ensures Open(FileBytes(meta, SectionsWith(m, history)), journal)
         == if FollowsJournal(meta, journal) && meta.activeSlots == |m.active| && CountsHistory(history, meta)
            then Some(Opened(meta, m, history)) else None
  {
    hide Writable, OpenSections, Open, FollowsJournal, MetadataInRange, SectionsWith, FileBytes;
    EnvelopeRoundTrip(meta, SectionsWith(m, history), journal);
    SectionsAreSmall(m, history, meta);
    SectionsOpen(m, history, meta);
  }

  /** A history of one frame that ends before it: the file opens, and its history does not decode. */
  lemma UndecodableHistoryOpens(m: Image, meta: Metadata, journal: seq<byte>)
    requires Writable(m) && MetadataInRange(meta) && FollowsJournal(meta, journal)
    requires meta.activeSlots == |m.active| && meta.frameCount == 1
    requires |FileBytes(meta, SectionsWith(m, EncodeU64(1)))| <= MAX_SNAPSHOT
    ensures Open(FileBytes(meta, SectionsWith(m, EncodeU64(1))), journal) == Some(Opened(meta, m, EncodeU64(1)))
    ensures DecodeHistory(EncodeU64(1)) == None
  {
    hide Writable, Open, FollowsJournal, MetadataInRange, SectionsWith, FileBytes, LittleEndian, FromLittleEndian;
    FieldRoundTrip(1);
    assert EncodeU64(1)[..8] == EncodeU64(1) && EncodeU64(1)[8..] == [];
    AnyHistoryOpens(m, EncodeU64(1), meta, journal);
    assert ParseFrames(1, []).Bad?;
  }

  /** Opening a written image gives it back with its metadata and history, and succeeds exactly when the journal's
      prefix of the recorded length has the recorded digest and the metadata's two counts are those of the content. */
  lemma CreatedOpens(m: Image, frames: seq<CommitFrame>, meta: Metadata, journal: seq<byte>)
    requires Writable(m) && MetadataInRange(meta)
    requires |FileBytes(meta, SectionsOf(m, frames))| <= MAX_SNAPSHOT && |frames| < U64
    ensures Open(FileBytes(meta, SectionsOf(m, frames)), journal)
         == if FollowsJournal(meta, journal) && meta.activeSlots == |m.active| && meta.frameCount == |frames|
            then Some(Opened(meta, m, HistoryBytes(frames))) else None
  {
    hide Writable, Open, FollowsJournal, MetadataInRange, SectionsWith, FileBytes, HistoryBytes;
    AnyHistoryOpens(m, HistoryBytes(frames), meta, journal);
    HistoryCount(frames);
  }

  // ---- What opening guarantees ----

  lemma ParsedCount(s: seq<byte>)
    requires ParseTable(s).Some?
    ensures |ParseTable(s).value| < U32
  {
    hide Rows, FromLittleEndian, WellFormed, Directory;
    WordWidths();
    FromLittleEndianRoundTrip(s[..4]);
    var count := FromLittleEndian(s[..4]);
    RowCount(WordRow(8), s[8..16 + 8 * count], count + 1);
  }

  /** Whatever opens, from whatever bytes, has strictly sorted tables of UTF-8 strings, sorted indexes, and no record,
      head or index entry that leads outside a section. The active list is not checked: the image is sound as a whole
      exactly when that list stays inside the records. Of the history only the count is. */
  lemma OpenedIsSound(bytes: seq<byte>, journal: seq<byte>)
    requires Open(bytes, journal).Some?
    ensures var m := Open(bytes, journal).value.image;
      && (Sound(m) <==> forall i :: 0 <= i < |m.active| ==> m.active[i] < |m.records|)
      && Sound(m.(active := []))
      && WellFormed(m.slots) && WellFormed(m.predicates) && WellFormed(m.literals)
      && SortedByKey(m.spo) && SortedByKey(m.pos) && SortedByKey(m.osp)
    ensures var file := Open(bytes, journal).value; CountsHistory(file.history, file.meta)
  {
    hide Enveloped, FollowsJournal, LaidOut, ParseTable, WellFormed, Rows, SortedByKey, RecordFits, MetadataIn, SpansIn;
    SmallFile(bytes);
    var meta, spans := MetadataIn(WordsIn(bytes)), SpansIn(WordsIn(bytes));
    SpansInside(spans, |bytes|);
    var sections := Cut(bytes, spans);
    ParsedCount(sections[0]);
    ParsedCount(sections[1]);
    ParsedCount(sections[2]);
    ParsedIsWellFormed(sections[0]);
    ParsedIsWellFormed(sections[1]);
    ParsedIsWellFormed(sections[2]);
    var m := Open(bytes, journal).value.image;
    RowCount(WordRow(4), sections[4], |m.slots|);
    RecordWidth();
    RowCount(RecordRow(), sections[3], |sections[3]| / 48);
    forall i | 0 <= i < |m.records| ensures RecordFits(m.(active := []), i) {
      assert RecordFits(m, i);
      SameRecordFit(m, i);
    }
  }

  lemma SameRecordFit(m: Image, i: nat)
    requires i < |m.records| && RecordFits(m, i)
    ensures RecordFits(m.(active := []), i)
  {
  }

  // ---- The active list is not checked ----

  /** Any other list of as many words may stand in for the active one: the file opens all the same. */
  lemma ActiveListIsFree(m: Image, active: seq<nat>, frames: seq<CommitFrame>, meta: Metadata, journal: seq<byte>)
    requires Writable(m) && AllWords(active) && |active| == |m.active|
    requires MetadataInRange(meta) && FollowsJournal(meta, journal)
    requires meta.activeSlots == |active| && meta.frameCount == |frames| < U64
    requires |FileBytes(meta, SectionsOf(m.(active := active), frames))| <= MAX_SNAPSHOT
    ensures Open(FileBytes(meta, SectionsOf(m.(active := active), frames)), journal)
         == Some(Opened(meta, m.(active := active), HistoryBytes(frames)))
  {
    SwappedIsWritable(m, active);
    hide Writable, FileBytes, SectionsOf, FollowsJournal, MetadataInRange;
    CreatedOpens(m.(active := active), frames, meta, journal);
  }

  lemma SwappedIsWritable(m: Image, active: seq<nat>)
    requires Writable(m) && AllWords(active) && |active| == |m.active|
    ensures Writable(m.(active := active))
  {
    hide SortedByKey, WellFormed, RecordInRange, AllEntries, AllWords;
    var swapped := m.(active := active);
    forall i | 0 <= i < |m.records| ensures RecordFits(swapped, i) {
      assert RecordFits(m, i);
    }
  }

  /** One slot holding one fact, with an active list that names a record the file does not have. */
  const STRAY: Image :=
    Image([[97]], [[98]], [], [MappedRecord(0, 0, NONE, 1, 0, 2)], [0], [5],
          [IndexEntry(1, 0, 2, 0)], [IndexEntry(0, 2, 1, 0)], [IndexEntry(2, 1, 0, 0)])

  lemma StrayIsWritable()
    ensures Writable(STRAY)
  {
    assert ValidUtf8([97]) && ValidUtf8([98]) by {
      assert [97][1..] == [] && [98][1..] == [];
    }
    assert RecordFits(STRAY, 0);
  }

  lemma {:induction false} BodyLength(sections: seq<seq<byte>>, at: nat)
    requires forall i :: 0 <= i < |sections| ==> |sections[i]| <= 48
    ensures |Body(sections, at)| <= 55 * |sections|
    decreases |sections|
  {
    if sections != [] {
      BodyLength(sections[1..], at + Padding(at) + |sections[0]|);
    }
  }

  lemma StrayIsSmall(meta: Metadata)
    ensures |FileBytes(meta, SectionsOf(STRAY, []))| <= MAX_SNAPSHOT
  {
    hide Writable, Spans, TableBytes, Written, HeaderWords, Body, Digest, RecordRow, IndexRow;
    var sections := SectionsOf(STRAY, []);
    TableLength([[97]]);
    TableLength([[98]]);
    TableLength([]);
    assert [[97]][..0] == [] && [[98]][..0] == [] && Joined([[97]]) == [97] && Joined([[98]]) == [98];
    StrayIsWritable();
    RecordsReadBack(STRAY);
    WordsReadBack(STRAY.heads);
    WordsReadBack(STRAY.active);
    IndexReadsBack(STRAY.spo);
    IndexReadsBack(STRAY.pos);
    IndexReadsBack(STRAY.osp);
    assert |HistoryBytes([])| == 8;
    BodyLength(sections, HEADER_LEN);
    var rest := Body(sections, HEADER_LEN) + TRAILER;
    HeaderLength(HeaderWords(HEADER_LEN + |rest|, Digest(rest), meta, Spans(sections, HEADER_LEN)));
  }

  lemma HeaderLength(words: seq<nat>)
    requires |words| == 38
    ensures |HeaderBytes(words)| == HEADER_LEN
  {
    WrittenLength(WordRow(8), words);
  }

  /** A file that opens to an image with an active record outside its records. */
  lemma StrayActiveOpens(meta: Metadata, journal: seq<byte>)
    requires MetadataInRange(meta) && FollowsJournal(meta, journal) && meta.activeSlots == 1 && meta.frameCount == 0
    ensures Open(FileBytes(meta, SectionsOf(STRAY, [])), journal) == Some(Opened(meta, STRAY, HistoryBytes([])))
    ensures STRAY.active[0] >= |STRAY.records| && !Sound(STRAY)
  {
    hide Writable, FileBytes, SectionsOf, FollowsJournal, MetadataInRange, HistoryBytes, Open;
    StrayIsWritable();
    StrayIsSmall(meta);
    CreatedOpens(STRAY, [], meta, journal);
  }

  lemma SpansInside(spans: seq<Span>, size: nat)
    requires LaidOut(spans, size)
    ensures forall i :: 0 <= i < |spans| ==> InsideFile(spans[i], size)
  {
  }

  lemma SmallFile(bytes: seq<byte>)
    requires Enveloped(bytes)
    ensures HEADER_LEN <= |bytes| <= MAX_SNAPSHOT
  {
  }
}
