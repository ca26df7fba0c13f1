/** The shared kernel: the same store and the same queries on chunked, sharded containers, with an in-place
    index replace and an incremental signature. */
module SharedKernel {
  import opened Facts
  import opened Store
  import opened Indexes
  import opened ViewLaws
  import opened Containers
  import opened Signature
  import opened SharedView
  import opened Query
  import opened QueryLaws

  const HEAD_SHARDS: nat := 4096
  const HISTORY_SHARDS: nat := 1024

  /** A slot's history as a linked list, newest record first. */
  datatype HistoryNode = HistoryNode(id: nat, previous: Option<HistoryNode>)

  function NodeIds(node: HistoryNode): seq<nat> {
    (match node.previous case None => [] case Some(p) => NodeIds(p)) + [node.id]
  }

  function Histories(nodes: map<Name, HistoryNode>): map<Name, seq<nat>> {
    map slot | slot in nodes :: NodeIds(nodes[slot])
  }

  /** The hash functions of the seven index key types and of slot names. */
  datatype Hashes = Hashes(name: Name -> nat, atom: Atom -> nat, atomName: ((Atom, Name)) -> nat,
                           atomAtom: ((Atom, Atom)) -> nat, nameAtom: ((Name, Atom)) -> nat, fact: Fact -> nat)

  class DefinitionStore {
    const log: ChunkedLog<Record>
    const head: ShardedMap<Name, nat>
    const history: ShardedMap<Name, HistoryNode>
    var signature: ActiveSignature

    ghost function Repr(): set<object> { {this, log, head, history} }

    ghost predicate Apart() {
      && (log as object) != head && (log as object) != history && (log as object) != this
      && (head as object) != history && (head as object) != this && (history as object) != this
    }

    ghost predicate Valid()
      reads Repr()
    {
      Apart() && log.Valid() && head.Valid() && history.Valid()
    }

    ghost function Model(): State
      reads Repr()
    {
      State(log.Contents(), head.contents, Histories(history.contents))
    }

    function RecordAt(id: nat): (r: Record)
      requires Valid() && id < |Model().log|
      reads Repr()
      ensures r == Model().log[id]
    {
      log.Get(id)
    }

    constructor (hash: Name -> nat)
      ensures Valid() && fresh(Repr()) && Model() == EMPTY && signature == NO_RECORDS
    {
      hide ShardedMap.Valid;
      log := new ChunkedLog();
      head := new ShardedMap(HEAD_SHARDS, hash);
      history := new ShardedMap(HISTORY_SHARDS, hash);
      signature := NO_RECORDS;
    }

    method AppendSlotHistory(slot: Name, id: nat)
      requires Valid()
      modifies history
      ensures Valid()
      ensures Histories(history.contents) == old(Histories(history.contents))[slot := HistoryOf(old(Histories(history.contents)), slot) + [id]]
    {
      hide ShardedMap.Valid;
      var previous := history.Get(slot);
      var node := HistoryNode(id, previous);
      var _ := history.Insert(slot, node);
      assert NodeIds(node) == HistoryOf(old(Histories(history.contents)), slot) + [id];
    }

    /** Move a slot's head and keep the signature of the heads in step. */
    method ReplaceHead(slot: Name, newHead: Option<nat>)
      requires Valid() && (slot in head.contents ==> signature.count > 0)
      modifies head, this`signature
      ensures Valid()
      ensures head.contents == match newHead case Some(id) => old(head.contents)[slot := id] case None => old(head.contents) - {slot}
      ensures signature == Moved(old(signature), HeadOf(old(head.contents), slot), newHead)
    {
      hide ShardedMap.Valid, ChunkedLog.Valid, AddRecord, RemoveRecord, Histories;
      var previous := head.Get(slot);
      if previous.Some? {
        signature := RemoveRecord(signature, previous.value);
      }
      if newHead.Some? {
        var _ := head.Insert(slot, newHead.value);
        signature := AddRecord(signature, newHead.value);
      } else {
        var _ := head.Remove(slot);
        assert previous.None? ==> old(head.contents) - {slot} == old(head.contents);
      }
    }

    method AppendDefine(slot: Name, fact: Fact) returns (id: nat)
      requires Valid() && (slot in head.contents ==> signature.count > 0)
      modifies Repr()
      ensures Valid() && Model() == AfterDefine(old(Model()), slot, fact)
      ensures id == |old(Model()).log| && signature == Moved(old(signature), HeadOf(old(head.contents), slot), Some(id))
    {
      hide ShardedMap.Valid, AddRecord, RemoveRecord, Histories;
      var previous := head.Get(slot);
      id := log.Push(Record(log.len, DefineKind, slot, Some(fact), previous, Some(log.len)));
      AppendSlotHistory(slot, id);
      ReplaceHead(slot, Some(id));
    }

    method AppendForget(slot: Name) returns (id: nat, revealed: Option<nat>)
      requires Valid() && (slot in head.contents ==> signature.count > 0)
      requires slot in head.contents ==> head.contents[slot] < |log.Contents()|
      modifies Repr()
      ensures Valid() && Model() == AfterForget(old(Model()), slot)
      ensures id == |old(Model()).log| && revealed == Revealed(old(Model()), slot)
      ensures signature == Moved(old(signature), HeadOf(old(head.contents), slot), revealed)
    {
      hide ShardedMap.Valid, AddRecord, RemoveRecord, Histories;
      var current := head.Get(slot);
      revealed := if current.Some? then log.Get(current.value).previousHead else None;
      id := log.Push(Record(log.len, ForgetKind, slot, None, current, revealed));
      AppendSlotHistory(slot, id);
      ReplaceHead(slot, revealed);
    }
  }

  class Kernel {
    const store: DefinitionStore
    const view: CurrentView
    var nextEntity: nat

    ghost function Repr(): set<object> { {this} + store.Repr() + view.Repr() }

    ghost predicate Apart() {
      this !in store.Repr() && this !in view.Repr() && store.Repr() !! view.Repr()
    }

    ghost function Model(): State
      reads Repr()
    {
      store.Model()
    }

    /** The store is well formed, every index holds exactly the current heads, and both signatures are
        the signature of the current heads. */
    ghost predicate Valid()
      reads Repr()
    {
      && Apart() && store.Valid() && view.Valid()
      && Inv(Model())
      && AllFacts(Model().log, HeadIds(Model()))
      && view.Contents() == ViewOf(Model().log, HeadIds(Model()))
      && store.signature == SignatureOfSet(HeadIds(Model()))
      && view.signature == SignatureOfSet(HeadIds(Model()))
    }

    constructor (hashes: Hashes)
      ensures Valid() && fresh(Repr()) && Model() == EMPTY && nextEntity == 1
    {
      hide Inv, ViewOf, SignatureOfSet, HeadIds, ShardedMap.Valid, DefinitionStore.Valid, CurrentView.Valid;
      store := new DefinitionStore(hashes.name);
      view := new CurrentView(hashes.atom, hashes.name, hashes.atomName, hashes.atomAtom, hashes.nameAtom, hashes.fact);
      nextEntity := 1;
      new;
      EmptyIsExact();
    }

    method NewEntity() returns (entity: nat)
      requires Valid()
      modifies this`nextEntity
      ensures Valid() && Model() == old(Model())
      ensures entity == old(nextEntity) && nextEntity == old(nextEntity) + 1
    {
      hide Inv, ViewOf, SignatureOfSet, HeadIds, DefinitionStore.Valid, CurrentView.Valid;
      entity := nextEntity;
      nextEntity := nextEntity + 1;
    }

    method Define(slot: Name, fact: Fact) returns (id: nat)
      requires Valid()
      modifies Repr()
      ensures Valid() && Model() == AfterDefine(old(Model()), slot, fact)
      ensures id == |old(Model()).log| && nextEntity == old(nextEntity)
    {
      hide Inv, ViewOf, SignatureOfSet, HeadIds, Added, Removed, Replaced;
      hide AddRecord, RemoveRecord, ShardedMap.Valid, ChunkedLog.Valid, ChunkedLog.Contents, Histories;
      ghost var s := Model();
      DefinedInPlaceIsExact(s, slot, fact);
      var oldHead := store.head.Get(slot);
      id := store.AppendDefine(slot, fact);
      assert Model() == AfterDefine(s, slot, fact);
      match oldHead {
        case Some(h) => view.Replace(store.RecordAt(h).fact.value, h, fact, id);
        case None => view.Add(fact, id);
      }
    }

    method Forget(slot: Name) returns (id: nat)
      requires Valid()
      modifies Repr()
      ensures Valid() && Model() == AfterForget(old(Model()), slot)
      ensures id == |old(Model()).log| && nextEntity == old(nextEntity)
    {
      hide Inv, ViewOf, SignatureOfSet, HeadIds, Added, Removed, Replaced;
      hide AddRecord, RemoveRecord, ShardedMap.Valid, ChunkedLog.Valid, ChunkedLog.Contents, Histories;
      ghost var s := Model();
      ForgottenInPlaceIsExact(s, slot);
      var oldHead := store.head.Get(slot);
      var revealed;
      id, revealed := store.AppendForget(slot);
      assert Model() == AfterForget(s, slot);
      if oldHead.Some? {
        if revealed.Some? {
          view.Replace(store.RecordAt(oldHead.value).fact.value, oldHead.value, store.RecordAt(revealed.value).fact.value, revealed.value);
        } else {
          view.Remove(store.RecordAt(oldHead.value).fact.value, oldHead.value);
        }
      }
    }

    function Resolve(slot: Name): (fact: Option<Fact>)
      requires Valid()
      reads Repr()
      ensures fact == ResolveIn(StacksOf(Model()), slot)
    {
      match store.head.Get(slot)
      case None => None
      case Some(id) =>
        TopIsHead(Model(), slot);
        store.log.Get(id).fact
    }

    method Definitions(slot: Name) returns (facts: seq<Fact>)
      requires Valid()
      ensures facts == DefinitionsIn(StacksOf(Model()), slot)
    {
      hide ViewOf, SignatureOfSet, HeadIds, ChainFacts, StackAt, NewestFirst, RecordInv, IdsOf, ShardedMap.Valid;
      ghost var log := Model().log;
      var next := store.head.Get(slot);
      HeadChain(Model(), slot);
      ChainEnd(log);
      facts := [];
      while next.Some?
        invariant IsChainStart(log, next)
        invariant facts + ChainFacts(log, next) == ChainFacts(log, HeadOf(Model().head, slot))
        decreases if next.None? then 0 else next.value + 1
      {
        ChainStep(log, next.value);
        var record := store.log.Get(next.value);
        facts := facts + [record.fact.value];
        next := record.previousHead;
      }
    }

    method History(slot: Name) returns (records: seq<Record>)
      requires Valid()
      ensures records == RecordsOf(Model().log, slot)
    {
      hide Inv, ViewOf, SignatureOfSet, HeadIds, ShardedMap.Valid, CurrentView.Valid, IdsOf, RecordsOf;
      var ids := NewestFirstIds(store.history.Get(slot));
      HistoryIsIds(Model(), slot);
      RecordsAreIds(Model().log, slot);
      ghost var all := RecordsOf(Model().log, slot);
      assert ids == IdsOf(Model().log, slot);
      records := [];
      for i := 0 to |ids|
        invariant records == all[..i]
      {
        records := records + [store.log.Get(ids[i])];
      }
    }

    function EntriesIn(ids: seq<nat>): (entries: seq<Entry>)
      requires Valid() && AllDefinitions(Model().log, ids)
      reads Repr()
      ensures entries == EntriesAt(Model().log, ids)
    {
      seq(|ids|, i requires 0 <= i < |ids| && store.log.Valid() && ids[i] < store.log.len && store.log.Contents()[ids[i]].fact.Some?
                 reads store.log =>
        Entry(ids[i], store.log.Get(ids[i]).slot, store.log.Get(ids[i]).fact.value))
    }

    function Candidates(p: Pattern, b: Binding): (entries: seq<Entry>)
      requires Valid()
      reads Repr()
      ensures entries == Select(ActiveEntries(Model()), p, b)
    {
      hide Inv, ViewOf, SignatureOfSet, HeadIds, Select, ActiveEntries, LookUp, ShardedMap.Valid;
      CandidatesAreSelection(Model(), p, b);
      HeadValues(Model(), store.head.contents);
      var heads := store.head.Values();
      assert heads == HeadIds(Model());
      var found := view.LookUpIn(heads, p, b);
      assert found == LookUp(ViewOf(Model().log, HeadIds(Model())), HeadIds(Model()), p, b);
      EntriesIn(SortedIds(found))
    }

    method Query(ps: seq<Pattern>, o: Options) returns (result: QueryResult)
      requires Valid()
      ensures result == QueryOf(SelectFrom(ActiveEntries(Model())), ps, o)
    {
      hide Inv, ViewOf, SignatureOfSet, HeadIds, Select;
      hide ActiveEntries, ShardedMap.Valid, DefinitionStore.Valid, CurrentView.Valid;
      result := RunQuery((p, b) reads Repr() requires Valid() => Candidates(p, b),
                         (p, b) reads Repr() requires Valid() => |Candidates(p, b)|, SelectFrom(ActiveEntries(Model())), ps, o);
    }

    /** The cheap self-check, in any state, compares counts and signatures. It succeeds in every valid state. */
    method ValidateFast() returns (ok: bool)
      ensures ok <==>
        store.head.len == store.signature.count <= store.log.len && view.signature == store.signature
      ensures Valid() ==> ok
    {
      hide Inv, ViewOf, SignatureOfSet, HeadIds;
      if Valid() {
        HeadCounts(Model());
      }
      ok := store.head.len == store.signature.count
        && store.signature.count <= store.log.len
        && view.signature == store.signature;
    }

    /** The full audit of a well-formed log recomputes the active set and both signatures from scratch: it succeeds
        exactly when the index lists the heads and both signatures are theirs, as in every valid state. */
    method ValidateFull() returns (ok: bool)
      requires store.Valid() && view.Valid() && Inv(Model())
      ensures ok <==>
        && store.signature == view.signature == SignatureOfSet(HeadIds(Model()))
        && AllIds(view.bySubjectRelation.contents) == HeadIds(Model())
      ensures Valid() ==> ok
    {
      hide Inv, SignatureOfSet, HeadIds, ShardedMap.Valid, DefinitionStore.Valid, CurrentView.Valid, AllIds;
      if Valid() {
        BucketsCover(Model().log, HeadIds(Model()), SubjectRelationOf);
      }
      ok := AuditStore();
      if ok {
        ok := AuditView();
      }
    }

    method AuditStore() returns (ok: bool)
      requires store.Valid() && Inv(Model())
      ensures ok <==> store.signature == SignatureOfSet(HeadIds(Model()))
    {
      hide ViewOf, SignatureOf, RecordInv, IdsOf, ShardedMap.Valid, CurrentView.Valid, AddRecord;
      var pairs := store.head.Pairs();
      var ids: seq<nat> := [];
      for i := 0 to |pairs|
        invariant |ids| == i && forall j :: 0 <= j < i ==> ids[j] == pairs[j].1
      {
        assert (pairs[i].0, pairs[i].1) in pairs;
        assert IsDefinition(Model().log, pairs[i].1, pairs[i].0);
        var record := store.log.Get(pairs[i].1);
        if record.kind != DefineKind || record.fact.None? {
          assert false;
          return false;
        }
        ids := ids + [pairs[i].1];
      }
      var recomputed := Recompute(ids);
      HeadListing(Model(), pairs, ids);
      ok := recomputed == store.signature;
    }

    method AuditView() returns (ok: bool)
      requires store.Valid() && view.Valid() && Inv(Model())
      ensures ok <==>
        && AllIds(view.bySubjectRelation.contents) == HeadIds(Model())
        && view.signature == SignatureOfSet(HeadIds(Model()))
    {
      hide Inv, SignatureOf, ShardedMap.Valid, AddRecord, IndexOf, AllIds;
      ghost var s := Model();
      HeadValues(s, store.head.contents);
      var active := store.head.Values();
      var buckets := view.bySubjectRelation.Values();
      var indexed := set bucket, id | bucket in buckets && id in bucket :: id;
      AllIdsByValue(view.bySubjectRelation.contents, buckets);
      assert active == HeadIds(s);
      if active != indexed {
        return false;
      }
      var recomputed := Recompute(SortedIds(indexed));
      ok := recomputed == view.signature;
    }
  }

  /** The walk along a history list, reversed at the end so that the oldest record comes first. */
  method NewestFirstIds(start: Option<HistoryNode>) returns (ids: seq<nat>)
    ensures ids == match start case None => [] case Some(n) => NodeIds(n)
  {
    ids := [];
    var node := start;
    while node.Some?
      invariant (match start case None => [] case Some(n) => NodeIds(n))
             == (match node case None => [] case Some(n) => NodeIds(n)) + ids
      decreases node
    {
      ids := [node.value.id] + ids;
      node := node.value.previous;
    }
  }

  method Recompute(ids: seq<nat>) returns (recomputed: ActiveSignature)
    ensures recomputed == SignatureOf(ids)
  {
    hide SignatureOf, AddRecord;
    recomputed := NO_RECORDS;
    SignatureOfNone();
    for i := 0 to |ids|
      invariant recomputed == SignatureOf(ids[..i])
    {
      SignatureOfMore(ids[..i], ids[i]);
      assert ids[..i + 1] == ids[..i] + [ids[i]];
      recomputed := AddRecord(recomputed, ids[i]);
    }
    assert ids[..|ids|] == ids;
  }

  lemma SignatureOfNone()
    ensures SignatureOf([]) == NO_RECORDS
  {
  }

  lemma SignatureOfMore(ids: seq<nat>, id: nat)
    ensures SignatureOf(ids + [id]) == AddRecord(SignatureOf(ids), id)
  {
    assert (ids + [id])[..|ids|] == ids;
  }

  lemma HeadValues(s: State, head: map<Name, nat>)
    requires s.head == head
    ensures (set slot | slot in head :: head[slot]) == HeadIds(s)
  {
  }

  /** The heads, listed pair by pair, are the active records without repetition. */
  lemma HeadListing(s: State, pairs: seq<(Name, nat)>, ids: seq<nat>)
    requires Inv(s) && |ids| == |pairs| && forall j :: 0 <= j < |ids| ==> ids[j] == pairs[j].1
    requires forall i, j :: 0 <= i < j < |pairs| ==> pairs[i].0 != pairs[j].0
    requires forall k, v :: (k, v) in pairs <==> k in s.head && s.head[k] == v
    ensures SignatureOf(ids) == SignatureOfSet(HeadIds(s))
  {
    forall i, j | 0 <= i < j < |ids| ensures ids[i] != ids[j] {
      assert (pairs[i].0, pairs[i].1) in pairs && (pairs[j].0, pairs[j].1) in pairs;
      assert IsDefinition(s.log, ids[i], pairs[i].0) && IsDefinition(s.log, ids[j], pairs[j].0);
    }
    forall id ensures id in ids <==> id in HeadIds(s) {
      if id in ids {
        var i :| 0 <= i < |ids| && ids[i] == id;
        assert (pairs[i].0, pairs[i].1) in pairs;
      }
      if id in HeadIds(s) {
        var slot :| slot in s.head && s.head[slot] == id;
        assert (slot, id) in pairs;
        var i :| 0 <= i < |pairs| && pairs[i] == (slot, id);
        assert ids[i] == id;
      }
    }
    ListingSignature(ids, HeadIds(s));
  }

  lemma {:induction false} BelowCount(ids: set<nat>, n: nat)
    requires forall id :: id in ids ==> id < n
    ensures |ids| <= n
    decreases n
  {
    if n > 0 {
      BelowCount(ids - {n - 1}, n - 1);
    } else {
      assert ids == {};
    }
  }

  lemma HistoryIsIds(s: State, slot: Name)
    requires Inv(s)
    ensures HistoryOf(s.history, slot) == IdsOf(s.log, slot)
  {
  }

  lemma HeadCounts(s: State)
    requires Inv(s)
    ensures |s.head| == SignatureOfSet(HeadIds(s)).count <= |s.log|
  {
    HeadsAreDefinitions(s);
    HeadsAreFacts(s);
    SignatureIsWrapped(SortedIds(HeadIds(s)));
    BelowCount(HeadIds(s), |s.log|);
  }

  lemma EmptyIsExact()
    ensures Inv(EMPTY) && HeadIds(EMPTY) == {}
    ensures ViewOf([], {}) == View(map[], map[], map[], map[], map[], map[], map[])
    ensures SignatureOfSet({}) == NO_RECORDS
  {
    assert HeadIds(EMPTY) == {};
  }

  lemma HeadChain(s: State, slot: Name)
    requires Inv(s)
    ensures IsChainStart(s.log, HeadOf(s.head, slot))
    ensures ChainFacts(s.log, HeadOf(s.head, slot)) == DefinitionsIn(StacksOf(s), slot)
  {
    if slot in s.head {
      TopIsHead(s, slot);
    }
  }
}
