/** Writing a snapshot file, opening it again, and asking it what the projection would have been asked. */
module SnapshotReopen {
  import opened Words
  import opened Facts
  import opened Orders
  import opened Store
  import opened Query
  import opened QueryLaws
  import opened Commits
  import opened Projection
  import opened ProjectionAgreement
  import opened FrameCodec
  import opened SortedIndex
  import opened Snapshot
  import opened SnapshotCreate
  import opened SnapshotSections
  import opened SnapshotFile
  import C = Calls

  // ---- Writing ----

  method Align(bytes: seq<byte>) returns (aligned: seq<byte>)
    ensures aligned == bytes + Zeros(Padding(|bytes|))
  {
    aligned := bytes;
    while |aligned| % 8 != 0
      invariant |bytes| <= |aligned| <= |bytes| + Padding(|bytes|)
      invariant aligned == bytes + Zeros(|aligned| - |bytes|)
      decreases |bytes| + Padding(|bytes|) - |aligned|
    {
      aligned := aligned + [0];
    }
  }

  lemma NextBody(sections: seq<seq<byte>>, i: nat, at: nat)
    requires i < |sections|
    ensures var start := at + Padding(at);
      && Body(sections[i..], at) == Zeros(Padding(at)) + sections[i] + Body(sections[i + 1..], start + |sections[i]|)
      && Spans(sections[i..], at) == [Span(start, |sections[i]|)] + Spans(sections[i + 1..], start + |sections[i]|)
  {
    assert sections[i..][1..] == sections[i + 1..];
  }

  ghost predicate LaidSoFar(sections: seq<seq<byte>>, bytes: seq<byte>, spans: seq<Span>, i: nat) {
    && i <= |sections| && |bytes| >= HEADER_LEN
    && bytes[HEADER_LEN..] + Body(sections[i..], |bytes|) == Body(sections, HEADER_LEN)
    && spans + Spans(sections[i..], |bytes|) == Spans(sections, HEADER_LEN)
  }

  lemma LayNext(sections: seq<seq<byte>>, bytes: seq<byte>, spans: seq<Span>, i: nat, aligned: seq<byte>)
    requires LaidSoFar(sections, bytes, spans, i) && i < |sections| && aligned == bytes + Zeros(Padding(|bytes|))
    ensures LaidSoFar(sections, aligned + sections[i], spans + [Span(|aligned|, |sections[i]|)], i + 1)
  {
    NextBody(sections, i, |bytes|);
    hide Body, Spans, Padding;
    var next := aligned + sections[i];
    var later := Body(sections[i + 1..], |next|);
    assert next[HEADER_LEN..] == bytes[HEADER_LEN..] + (Zeros(Padding(|bytes|)) + sections[i]);
    assert next[HEADER_LEN..] + later == bytes[HEADER_LEN..] + (Zeros(Padding(|bytes|)) + sections[i] + later);
  }

  method WriteBody(sections: seq<seq<byte>>) returns (body: seq<byte>, spans: seq<Span>)
    ensures body == Body(sections, HEADER_LEN) && spans == Spans(sections, HEADER_LEN)
  {
    hide Padding, Body, Spans;
    var bytes: seq<byte> := Zeros(HEADER_LEN);
    spans := [];
    assert sections[0..] == sections;
    for i := 0 to |sections|
      invariant LaidSoFar(sections, bytes, spans, i)
    {
      var aligned := Align(bytes);
      LayNext(sections, bytes, spans, i, aligned);
      bytes, spans := aligned + sections[i], spans + [Span(|aligned|, |sections[i]|)];
    }
    NothingLeft(sections, |bytes|);
    body := bytes[HEADER_LEN..];
    assert spans + [] == spans && body + [] == body;
  }

  /** Lay the sections out behind room for the header, then fill the header in. */
  method WriteFile(meta: Metadata, sections: seq<seq<byte>>) returns (file: seq<byte>)
    requires |sections| == SECTION_COUNT
    ensures file == FileBytes(meta, sections)
  {
    hide Digest, Body, Spans, HeaderWords;
    var body, spans := WriteBody(sections);
    var rest := body + TRAILER;
    var digest := ExtendDigest(FNV_OFFSET_BASIS, rest);
    DigestStarts(rest);
    var words := HeaderWords(HEADER_LEN + |rest|, digest, meta, spans);
    var packed := WriteRows(WordRow(8), words);
    file := SNAPSHOT_MAGIC + LittleEndian(SNAPSHOT_VERSION, 4) + LittleEndian(HEADER_LEN, 4) + packed + rest;
  }

  lemma NothingLeft(sections: seq<seq<byte>>, at: nat)
    ensures sections[|sections|..] == [] && Body([], at) == [] && Spans([], at) == []
  {
  }

  lemma DigestStarts(bytes: seq<byte>)
    ensures DigestExtend(FNV_OFFSET_BASIS, bytes) == Digest(bytes)
  {
  }

  /** The snapshot file of a projection and its history. It is refused exactly when an entity id or a length cannot be
      written or the file would be too large; otherwise it holds an image that represents the stacks. */
  method CreateFile(stacks: Stacks, frames: seq<CommitFrame>, meta: Metadata)
    returns (file: Option<seq<byte>>, ghost image: Image)
    requires Coherent(stacks) && IdsFit(stacks) && TopsApart(stacks)
    ensures file.Some? ==> EntitiesFit(stacks) && Roomy(stacks) && forall i :: 0 <= i < |frames| ==>
      ShortFrame(frames[i])
    ensures EntitiesFit(stacks) && Roomy(stacks) ==>
      Represents(image, stacks) && Tabled(image, stacks) && IdsInRange(image)
    ensures EntitiesFit(stacks) && Roomy(stacks) && (forall i :: 0 <= i < |frames| ==> ShortFrame(frames[i])) ==>
      var bytes := FileBytes(meta, SectionsOf(image, frames));
      file == if |bytes| <= MAX_SNAPSHOT then Some(bytes) else None
  {
    hide *;
    image := Image([], [], [], [], [], [], [], [], []);
    var created := Create(stacks);
    if created.None? {
      return None, image;
    }
    var m := created.value;
    image := m;
    var history := EncodeHistory(frames);
    if history.None? {
      return None, image;
    }
    var slots := WriteTable(m.slots);
    var predicates := WriteTable(m.predicates);
    var literals := WriteTable(m.literals);
    var records := WriteRows(RecordRow(), m.records);
    var heads := WriteRows(WordRow(4), m.heads);
    var active := WriteRows(WordRow(4), m.active);
    var spo := WriteRows(IndexRow(), m.spo);
    var pos := WriteRows(IndexRow(), m.pos);
    var osp := WriteRows(IndexRow(), m.osp);
    SectionsListed(m, frames);
    var bytes := WriteFile(meta, [slots, predicates, literals, records, heads, active, spo, pos, osp, history.value]);
    file := if |bytes| <= MAX_SNAPSHOT then Some(bytes) else None;
  }

  lemma {:induction false} RecordsLength(records: seq<MappedRecord>)
    ensures |Written(RecordRow(), records)| == 48 * |records|
    decreases |records|
  {
    if records != [] {
      RecordsLength(records[1..]);
    }
  }

  /** What is refused for want of 32-bit indexes is past the size limit, whatever its indexes would say. */
  lemma UnroomyIsTooLarge(m: Image, frames: seq<CommitFrame>, meta: Metadata)
    requires |m.records| >= NONE || |m.predicates| >= U32 || |m.literals| >= U32
    ensures |FileBytes(meta, SectionsOf(m, frames))| > MAX_SNAPSHOT
  {
    if |FileBytes(meta, SectionsOf(m, frames))| <= MAX_SNAPSHOT {
      SectionsAreSmall(m, HistoryBytes(frames), meta);
      hide FileBytes, TableBytes, Written, HistoryBytes;
      var sections := SectionsOf(m, frames);
      assert |sections[1]| <= MAX_SNAPSHOT && |sections[2]| <= MAX_SNAPSHOT && |sections[3]| <= MAX_SNAPSHOT;
      RecordsLength(m.records);
      TableLength(m.predicates);
      TableLength(m.literals);
    }
  }

  lemma SectionsListed(m: Image, frames: seq<CommitFrame>)
    ensures SectionsOf(m, frames)
         == [TableBytes(m.slots), TableBytes(m.predicates), TableBytes(m.literals),
             Written(RecordRow(), m.records), Written(WordRow(4), m.heads), Written(WordRow(4), m.active),
             Written(IndexRow(), m.spo), Written(IndexRow(), m.pos), Written(IndexRow(), m.osp), HistoryBytes(frames)]
  {
  }

  // ---- Opening ----

  ghost predicate KeysClimb(index: seq<IndexEntry>) {
    forall i :: 0 < i < |index| ==> KeyLe(KeyOf(index[i - 1]), KeyOf(index[i]))
  }

  lemma {:induction false} ClimbingIsSorted(index: seq<IndexEntry>)
    ensures KeysClimb(index) <==> SortedByKey(index)
    decreases |index|
  {
    hide KeyLe, KeyOf;
    if index != [] {
      var n := |index| - 1;
      var front := index[..n];
      ClimbingIsSorted(front);
      if KeysClimb(index) {
        assert KeysClimb(front) by {
          assert forall i :: 0 <= i < n ==> front[i] == index[i];
        }
        forall i | 0 <= i < n ensures KeyLe(KeyOf(index[i]), KeyOf(index[n])) {
          assert KeyLe(KeyOf(index[n - 1]), KeyOf(index[n]));
          assert i < n - 1 ==> KeyLe(KeyOf(front[i]), KeyOf(front[n - 1]));
          KeyTransitive(KeyOf(index[i]), KeyOf(index[n - 1]), KeyOf(index[n]));
        }
        forall i, j | 0 <= i < j < |index| ensures KeyLe(KeyOf(index[i]), KeyOf(index[j])) {
          assert j < n ==> front[i] == index[i] && front[j] == index[j];
        }
      }
    }
  }

  method CheckIndex(m: Image, index: seq<IndexEntry>) returns (valid: bool)
    ensures valid == IndexValid(m, index)
  {
    hide KeyLe, KeyOf, SortedByKey;
    ClimbingIsSorted(index);
    for i := 0 to |index|
      invariant forall k :: 0 <= k < i ==> index[k].record < |m.records|
      invariant forall k :: 0 < k < i ==> KeyLe(KeyOf(index[k - 1]), KeyOf(index[k]))
    {
      if index[i].record >= |m.records| {
        return false;
      }
      if i > 0 && !KeyLe(KeyOf(index[i - 1]), KeyOf(index[i])) {
        return false;
      }
    }
    valid := true;
  }

  method CheckRecords(m: Image) returns (valid: bool)
    ensures valid == RecordsFit(m)
  {
    hide RecordFits;
    for i := 0 to |m.records|
      invariant forall k :: 0 <= k < i ==> RecordFits(m, k)
    {
      if !RecordFits(m, i) {
        return false;
      }
    }
    valid := true;
  }

  method CheckHeads(m: Image) returns (valid: bool)
    ensures valid == HeadsFit(m)
  {
    for t := 0 to |m.heads|
      invariant forall k :: 0 <= k < t ==> m.heads[k] == NONE || m.heads[k] < |m.records|
    {
      if m.heads[t] != NONE && m.heads[t] >= |m.records| {
        return false;
      }
    }
    valid := true;
  }

  method Validate(m: Image) returns (valid: bool)
    ensures valid == Validated(m)
  {
    hide RecordsFit, HeadsFit, IndexValid;
    valid := CheckRecords(m);
    if !valid { return; }
    valid := CheckHeads(m);
    if !valid { return; }
    valid := CheckIndex(m, m.spo);
    if !valid { return; }
    valid := CheckIndex(m, m.pos);
    if !valid { return; }
    valid := CheckIndex(m, m.osp);
  }

  method CheckLayout(spans: seq<Span>, size: nat) returns (valid: bool)
    ensures valid == LaidOut(spans, size)
  {
    for i := 0 to |spans|
      invariant forall k :: 0 <= k < i ==> InsideFile(spans[k], size)
    {
      if spans[i].start < HEADER_LEN || spans[i].start + spans[i].length + |TRAILER| > size {
        return false;
      }
    }
    var ordered := Sort(ByStart, spans);
    for i := 0 to |ordered|
      invariant forall k :: 0 <= k < i - 1 ==> ordered[k].start + ordered[k].length <= ordered[k + 1].start
    {
      if i > 0 && ordered[i - 1].start + ordered[i - 1].length > ordered[i].start {
        assert !NoOverlap(ordered) by {
          assert !(ordered[i - 1].start + ordered[i - 1].length <= ordered[i - 1 + 1].start);
        }
        return false;
      }
    }
    valid := true;
  }

  method OpenFile(bytes: seq<byte>, journal: seq<byte>) returns (result: Option<Opened>)
    ensures result == Open(bytes, journal)
  {
    hide FollowsJournal, LaidOut, Validated, ParseTable, CountsAgree, MetadataIn, SpansIn, Assemble, Enveloped;
    if !Enveloped(bytes) {
      return None;
    }
    SmallFile(bytes);
    var words := WordsIn(bytes);
    hide WordsIn;
    var meta, spans := MetadataIn(words), SpansIn(words);
    if !FollowsJournal(meta, journal) {
      return None;
    }
    var laid := CheckLayout(spans, |bytes|);
    if !laid {
      return None;
    }
    SpansInside(spans, |bytes|);
    var sections := Cut(bytes, spans);
    hide Cut;
    var slots := ReadTable(sections[0]);
    if slots.None? { return None; }
    var predicates := ReadTable(sections[1]);
    if predicates.None? { return None; }
    var literals := ReadTable(sections[2]);
    if literals.None? { return None; }
    if !CountsAgree(sections, |slots.value|, meta) {
      return None;
    }
    var image := Assemble(sections, slots.value, predicates.value, literals.value);
    var valid := Validate(image);
    result := if valid then Some(Opened(meta, image, sections[9])) else None;
  }

  // ---- What a replayed history puts into its stacks ----

  ghost predicate TextsStored(stacks: Stacks) {
    && (forall slot :: slot in stacks ==> ValidUtf8(slot))
    && forall slot :: slot in stacks ==> forall i :: 0 <= i < |stacks[slot]| ==> FactStored(stacks[slot][i].fact)
  }

  predicate FactStored(fact: Fact) { StorableAtom(fact.subject) && StorableText(fact.relation) && StorableAtom(fact.target) }

  ghost predicate Replayable(r: Replayed) {
    && Coherent(r.stacks) && TextsStored(r.stacks)
    && forall slot :: slot in r.stacks ==> forall i :: 0 <= i < |r.stacks[slot]| ==> r.stacks[slot][i].id < r.records
  }

  lemma ReplayOneStored(r: Replayed, op: Operation)
    requires Replayable(r) && StorableOperation(op)
    ensures Replayable(ReplayOne(r, op)) && ReplayOne(r, op).records <= r.records + 1
  {
    hide ValidUtf8, StorableAtom;
  }

  lemma {:induction false} ReplayStored(ops: seq<Operation>)
    requires forall i :: 0 <= i < |ops| ==> StorableOperation(ops[i])
    ensures Replayable(Replay(ops)) && Replay(ops).records <= |ops|
    decreases |ops|
  {
    hide StorableOperation, Replayable;
    if ops == [] {
      NothingReplayed();
    } else {
      ReplayStored(ops[..|ops| - 1]);
      ReplayOneStored(Replay(ops[..|ops| - 1]), ops[|ops| - 1]);
    }
  }

  lemma NothingReplayed()
    ensures Replayable(Replayed(map[], 0))
  {
  }

  lemma {:induction false} FlattenStored(frames: seq<CommitFrame>)
    requires forall i :: 0 <= i < |frames| ==> Storable(frames[i])
    ensures forall i :: 0 <= i < |Flatten(frames)| ==> StorableOperation(Flatten(frames)[i])
    decreases |frames|
  {
    hide StorableOperation;
    if frames != [] {
      FlattenStored(frames[..|frames| - 1]);
    }
  }

  lemma StringsStored(m: Image, stacks: Stacks)
    requires Tabled(m, stacks) && TextsStored(stacks)
    ensures StoredStrings(m)
  {
    hide ValidUtf8, SortedNames;
    forall name | name in m.slots + m.predicates + m.literals ensures ValidUtf8(name) {
      if name in m.slots {
        assert name in stacks.Keys;
      } else if name in m.predicates {
        var slot, i :| slot in stacks && 0 <= i < |stacks[slot]| && stacks[slot][i].fact.relation == name;
        assert FactStored(stacks[slot][i].fact);
      } else {
        assert name in LiteralsIn(stacks);
        var slot, i :| slot in stacks && 0 <= i < |stacks[slot]|
          && name in TextOf(stacks[slot][i].fact.subject) + TextOf(stacks[slot][i].fact.target);
        assert FactStored(stacks[slot][i].fact);
      }
    }
  }

  lemma ReplayFits(frames: seq<CommitFrame>)
    requires forall i :: 0 <= i < |frames| ==> Storable(frames[i])
    requires |Flatten(frames)| < U64
    ensures var stacks := Replay(Flatten(frames)).stacks;
      Coherent(stacks) && IdsFit(stacks) && TopsApart(stacks) && TextsStored(stacks)
  {
    var ops := Flatten(frames);
    FlattenStored(frames);
    ReplayStored(ops);
    ReplayIsKernel(ops);
    KernelTopsApart(C.AfterAll(C.INITIAL, CallsOf(ops)).store);
    hide Replay, Flatten, TopsApart, Coherent, TextsStored;
  }

  // ---- The snapshot answers like the projection ----

  datatype Answers = Answers(resolved: Option<Fact>, definitions: seq<Fact>, result: QueryResult, history: seq<CommitFrame>)

  method AskImage(m: Image, slot: Name, ps: seq<Pattern>, o: Options)
    returns (resolved: Option<Fact>, definitions: seq<Fact>, result: QueryResult)
    requires Sound(m) && Indexed(m)
    ensures resolved == Snapshot.Resolve(m, slot) && definitions == NewestFirst(Chain(m, HeadFor(m, slot)))
    ensures result == QueryOf(Mapped(m), ps, o)
  {
    resolved := Snapshot.Resolve(m, slot);
    definitions := Definitions(m, slot);
    result := QueryImage(m, ps, o);
  }

  /** The metadata of a snapshot taken after `journal`: the world's own fields, and what the layout is checked against. */
  function Describe(world: Metadata, journal: seq<byte>, active: nat, frames: nat): Metadata {
    world.(journalOffset := |journal|, journalDigest := Digest(journal), activeSlots := active, frameCount := frames)
  }

  /** Rows agree binding by binding without a limit, and in full when planning and deduplication are off. */
  ghost predicate RowsAgree(a: QueryResult, b: QueryResult, o: Options) {
    && (o.limit.None? ==> RowBindings(a.rows) == RowBindings(b.rows))
    && (o.limit.None? && !o.optimize && !o.distinct ==> a.rows == b.rows)
  }

  lemma RepresentedAnswers(m: Image, stacks: Stacks, active: seq<Entry>, slot: Name, ps: seq<Pattern>, o: Options)
    requires Represents(m, stacks) && Rising(active) && forall e :: e in active <==> e in Tops(stacks)
    ensures Sound(m) && Indexed(m)
    ensures Snapshot.Resolve(m, slot) == ResolveIn(stacks, slot)
    ensures NewestFirst(Chain(m, HeadFor(m, slot))) == DefinitionsIn(stacks, slot)
    ensures RowsAgree(QueryOf(Mapped(m), ps, o), QueryOf(SelectFrom(active), ps, o), o)
    ensures |m.active| == |active|
  {
    hide Represents, Rising, Tops, QueryOf, Chain, HeadFor, Snapshot.Resolve, ResolveIn, Mapped, SelectFrom, EntryOf;
    RepresentsSoundly(m, stacks);
    ResolvesAlike(m, stacks, slot);
    HeadOfSlot(m, stacks, slot);
    ActiveInRange(m);
    ActiveIsProjected(m, stacks, active);
    if o.limit.None? {
      QueriesAlike(m, stacks, active, ps, o);
    }
  }

  /** What the reopened file of a replayed history answers, about every slot and to every query. The kernel that
      replays the history stands for the projection, which agrees with it. */
  lemma ReopenedIsProjection(frames: seq<CommitFrame>, m: Image, journal: seq<byte>, later: seq<byte>, world: Metadata)
    requires (forall i :: 0 <= i < |frames| ==> Storable(frames[i]) && ShortFrame(frames[i]))
    requires |frames| < U64 && |Flatten(frames)| < U64
    requires 16 <= |journal| < U64 && journal <= later && MetadataInRange(world)
    requires var stacks := Replay(Flatten(frames)).stacks;
      Represents(m, stacks) && Tabled(m, stacks) && IdsInRange(m)
    requires |FileBytes(Describe(world, journal, |m.active|, |frames|), SectionsOf(m, frames))| <= MAX_SNAPSHOT
    ensures var meta := Describe(world, journal, |m.active|, |frames|);
      Open(FileBytes(meta, SectionsOf(m, frames)), later) == Some(Opened(meta, m, HistoryBytes(frames)))
    ensures DecodeHistory(HistoryBytes(frames)) == Some(frames)
    ensures Sound(m)
    ensures forall slot: Name :: Snapshot.Resolve(m, slot) == ResolveIn(StacksOf(Replayer(frames).store), slot)
    ensures forall slot: Name ::
      NewestFirst(Chain(m, HeadFor(m, slot))) == DefinitionsIn(StacksOf(Replayer(frames).store), slot)
    ensures forall ps: seq<Pattern>, o: Options ::
      RowsAgree(QueryOf(Mapped(m), ps, o), QueryOf(SelectFrom(ActiveEntries(Replayer(frames).store)), ps, o), o)
  {
    hide *;
    var s := Replayer(frames).store;
    ReplayFits(frames);
    ReplayedStacks(frames);
    TopsAreActive(s);
    StringsStored(m, StacksOf(s));
    ActiveCountFits(m, StacksOf(s), frames, Describe(world, journal, |m.active|, |frames|));
    SlotCountFits(m, frames, Describe(world, journal, |m.active|, |frames|));
    StillFollows(world, journal, later, |m.active|, |frames|);
    RepresentedIsWritable(m, StacksOf(s));
    CreatedOpens(m, frames, Describe(world, journal, |m.active|, |frames|), later);
    HistoryFits(frames);
    HistoryRoundTrip(frames);
    RepresentsSoundly(m, StacksOf(s));
    forall slot: Name
      ensures Snapshot.Resolve(m, slot) == ResolveIn(StacksOf(s), slot)
      ensures NewestFirst(Chain(m, HeadFor(m, slot))) == DefinitionsIn(StacksOf(s), slot)
    {
      RepresentedAnswers(m, StacksOf(s), ActiveEntries(s), slot, [], Options(true, true, true, None));
    }
    forall ps: seq<Pattern>, o: Options
      ensures RowsAgree(QueryOf(Mapped(m), ps, o), QueryOf(SelectFrom(ActiveEntries(s)), ps, o), o)
    {
      RepresentedAnswers(m, StacksOf(s), ActiveEntries(s), [], ps, o);
    }
  }

  lemma ReplayedStacks(frames: seq<CommitFrame>)
    ensures Replay(Flatten(frames)).stacks == StacksOf(Replayer(frames).store)
  {
    hide Replay, StacksOf, Inv;
    ReplayIsKernel(Flatten(frames));
  }

  /** A snapshot taken of any replayed history and opened again, over any journal that continues the one it was taken
      after, opens and gives the same resolution, definitions, rows and frames as the projection. It can be taken
      exactly when the entity ids and lengths can be written and the file is not too large. */
  method ReopenedAgrees(frames: seq<CommitFrame>, journal: seq<byte>, later: seq<byte>, world: Metadata,
                        slot: Name, ps: seq<Pattern>, o: Options)
    returns (created: bool, mapped: Answers, projected: Answers, ghost image: Image)
    requires (forall i :: 0 <= i < |frames| ==> Storable(frames[i])) && |frames| < U64 && |Flatten(frames)| < U64
    requires 16 <= |journal| < U64 && journal <= later && MetadataInRange(world)
    ensures created ==>
      && mapped.resolved == projected.resolved && mapped.definitions == projected.definitions
      && RowsAgree(mapped.result, projected.result, o)
      && mapped.history == projected.history == frames
    ensures var stacks := Replay(Flatten(frames)).stacks;
      && projected.resolved == ResolveIn(stacks, slot) && projected.definitions == DefinitionsIn(stacks, slot)
      && projected.result == QueryOf(SelectFrom(ActiveEntries(Replayer(frames).store)), ps, o)
      && (created ==> EntitiesFit(stacks) && Roomy(stacks) && forall i :: 0 <= i < |frames| ==> ShortFrame(frames[i]))
      && (EntitiesFit(stacks) && Roomy(stacks) && (forall i :: 0 <= i < |frames| ==> ShortFrame(frames[i])) ==>
          && Represents(image, stacks)
          && var meta := Describe(world, journal, |image.active|, |frames|);
            created <==> |FileBytes(meta, SectionsOf(image, frames))| <= MAX_SNAPSHOT)
  {
    hide *;
    ReplayFits(frames);
    ReplayedStacks(frames);
    var projection := new VmQueryProjection.FromFrames(frames);
    ProjectionIsKernel(projection, frames);
    var resolved := projection.Resolve(slot);
    var definitions := projection.Definitions(slot);
    var result := projection.Query(ps, o);
    projected := Answers(resolved, definitions, result, frames);
    created, mapped := false, projected;
    var stacks := projection.definitions;
    var file;
    file, image := CreateFile(stacks, frames, Describe(world, journal, |projection.active|, |frames|));
    if EntitiesFit(stacks) && Roomy(stacks) {
      RepresentedAnswers(image, stacks, projection.active, slot, ps, o);
    }
    if file.None? {
      return;
    }
    ReopenedIsProjection(frames, image, journal, later, world);
    var reopened := OpenFile(file.value, later);
    var m := reopened.value.image;
    resolved, definitions, result := AskImage(m, slot, ps, o);
    var history := ReadHistory(reopened.value.history);
    created, mapped := true, Answers(resolved, definitions, result, history.value);
  }

  lemma StillFollows(world: Metadata, journal: seq<byte>, later: seq<byte>, active: nat, frames: nat)
    requires MetadataInRange(world) && 16 <= |journal| < U64 && journal <= later && active < U64 && frames < U64
    ensures var meta := Describe(world, journal, active, frames);
      FollowsJournal(meta, later) && MetadataInRange(meta) && meta.activeSlots == active && meta.frameCount == frames
  {
    DigestBounded(journal);
    hide Digest;
    assert later[..|journal|] == journal;
    var meta := Describe(world, journal, active, frames);
    forall i | 0 <= i < 10 ensures MetadataWords(meta)[i] < U64 {
      assert MetadataWords(world)[i] < U64;
    }
  }

  lemma SlotCountFits(m: Image, frames: seq<CommitFrame>, meta: Metadata)
    requires |FileBytes(meta, SectionsOf(m, frames))| <= MAX_SNAPSHOT
    ensures |m.slots| <= U32
  {
    SectionsAreSmall(m, HistoryBytes(frames), meta);
    assert |SectionsOf(m, frames)[0]| <= MAX_SNAPSHOT;
    hide FileBytes, TableBytes, Written;
    TableLength(m.slots);
  }

  lemma ActiveCountFits(m: Image, stacks: Stacks, frames: seq<CommitFrame>, meta: Metadata)
    requires Represents(m, stacks) && |FileBytes(meta, SectionsOf(m, frames))| <= MAX_SNAPSHOT
    ensures |m.active| < U64
  {
    SectionsAreSmall(m, HistoryBytes(frames), meta);
    assert |SectionsOf(m, frames)[5]| <= MAX_SNAPSHOT;
    RepresentsSoundly(m, stacks);
    hide *;
    ReferencesAreWords(m);
    WordsReadBack(m.active);
    FifthSection(m, frames);
  }

  lemma FifthSection(m: Image, frames: seq<CommitFrame>)
    ensures SectionsOf(m, frames)[5] == Written(WordRow(4), m.active)
  {
  }

  lemma HistoryFits(frames: seq<CommitFrame>)
    requires forall i :: 0 <= i < |frames| ==> Storable(frames[i]) && ShortFrame(frames[i])
    ensures forall i :: 0 <= i < |frames| ==> Storable(frames[i], 4)
  {
    hide Storable, ShortFrame;
    forall i | 0 <= i < |frames| ensures Storable(frames[i], 4) {
      ShortIsStorable(frames[i]);
    }
  }
}
