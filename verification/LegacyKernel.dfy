/** The legacy kernel: one log, one head per slot, seven permutation indexes kept in step by removing the
    old head and adding the new one. The Python kernel has the same shape. */
module LegacyKernel {
  import opened Facts
  import opened Store
  import opened Indexes
  import opened ViewLaws
  import opened Query
  import opened QueryLaws

  class Kernel {
    var log: seq<Record>
    var head: map<Name, nat>
    var slotHistory: map<Name, seq<nat>>
    var view: View
    var nextEntity: nat

    ghost function Model(): State
      reads this
    {
      State(log, head, slotHistory)
    }

    ghost predicate Indexed(ids: set<nat>)
      reads this
    {
      AllFacts(log, ids) && view == ViewOf(log, ids)
    }

    /** The log is well formed and every index holds exactly the current heads. */
    ghost predicate Valid()
      reads this
    {
      Inv(Model()) && Indexed(HeadIds(Model()))
    }

    constructor ()
      ensures Valid() && Model() == EMPTY && nextEntity == 1
    {
      log, head, slotHistory := [], map[], map[];
      view := View(map[], map[], map[], map[], map[], map[], map[]);
      nextEntity := 1;
    }

    method AddToView(id: nat)
      requires id < |log| && log[id].fact.Some?
      modifies this`view
      ensures view == Added(old(view), log[id].fact.value, id)
    {
      view := Added(view, log[id].fact.value, id);
    }

    method RemoveFromView(id: nat)
      requires id < |log| && log[id].fact.Some?
      modifies this`view
      ensures view == Removed(old(view), log[id].fact.value, id)
    {
      view := Removed(view, log[id].fact.value, id);
    }

    method AppendDefine(slot: Name, fact: Fact) returns (id: nat, previous: Option<nat>)
      requires Inv(Model())
      modifies this`log, this`head, this`slotHistory
      ensures Model() == AfterDefine(old(Model()), slot, fact)
      ensures id == |old(log)| && previous == HeadOf(old(head), slot)
    {
      previous := HeadOf(head, slot);
      id := |log|;
      var record := Record(id, DefineKind, slot, Some(fact), previous, Some(id));
      log := log + [record];
      slotHistory := slotHistory[slot := HistoryOf(slotHistory, slot) + [id]];
      head := head[slot := id];
    }

    method AppendForget(slot: Name) returns (id: nat, current: Option<nat>, revealed: Option<nat>)
      requires Inv(Model())
      modifies this`log, this`head, this`slotHistory
      ensures Model() == AfterForget(old(Model()), slot)
      ensures id == |old(log)| && current == HeadOf(old(head), slot) && revealed == Revealed(old(Model()), slot)
    {
      current := HeadOf(head, slot);
      revealed := if current.Some? then log[current.value].previousHead else None;
      id := |log|;
      var record := Record(id, ForgetKind, slot, None, current, revealed);
      log := log + [record];
      slotHistory := slotHistory[slot := HistoryOf(slotHistory, slot) + [id]];
      match revealed {
        case Some(r) => head := head[slot := r];
        case None => head := head - {slot};
      }
    }

    method NewEntity() returns (entity: nat)
      requires Valid()
      modifies this`nextEntity
      ensures Valid() && Model() == old(Model())
      ensures entity == old(nextEntity) && nextEntity == old(nextEntity) + 1
    {
      entity := nextEntity;
      nextEntity := nextEntity + 1;
    }

    method Define(slot: Name, fact: Fact) returns (id: nat)
      requires Valid()
      modifies this
      ensures Valid() && Model() == AfterDefine(old(Model()), slot, fact)
      ensures id == |old(log)| && nextEntity == old(nextEntity)
    {
      hide Inv, ViewOf, HeadIds, Added, Removed;
      ghost var s, v := Model(), view;
      DefinedView(s, slot, fact);
      if slot in head {
        RemoveFromView(head[slot]);
      }
      assert Model() == s && view == WithoutHead(s, v, slot);
      var previous;
      id, previous := AppendDefine(slot, fact);
      assert Model() == AfterDefine(s, slot, fact) && view == WithoutHead(s, v, slot);
      AddToView(id);
      assert Model() == AfterDefine(s, slot, fact) && view == Added(WithoutHead(s, v, slot), fact, id);
    }

    method Forget(slot: Name) returns (id: nat)
      requires Valid()
      modifies this
      ensures Valid() && Model() == AfterForget(old(Model()), slot)
      ensures id == |old(log)| && nextEntity == old(nextEntity)
    {
      hide Inv, ViewOf, HeadIds, Added, Removed;
      ghost var s, v := Model(), view;
      ForgottenView(s, slot);
      if slot in head {
        RemoveFromView(head[slot]);
      }
      assert Model() == s && view == WithoutHead(s, v, slot);
      var current, revealed;
      id, current, revealed := AppendForget(slot);
      if revealed.Some? {
        AddToView(revealed.value);
      }
    }

    function Resolve(slot: Name): (fact: Option<Fact>)
      requires Valid()
      reads this
      ensures fact == ResolveIn(StacksOf(Model()), slot)
    {
      if slot in head then
        TopIsHead(Model(), slot);
        log[head[slot]].fact
      else None
    }

    method Definitions(slot: Name) returns (facts: seq<Fact>)
      requires Valid()
      ensures facts == DefinitionsIn(StacksOf(Model()), slot)
    {
      facts := WalkChain(log, HeadOf(head, slot));
    }

    method History(slot: Name) returns (records: seq<Record>)
      requires Valid()
      ensures records == RecordsOf(log, slot)
    {
      var ids := HistoryOf(slotHistory, slot);
      RecordsAreIds(log, slot);
      records := [];
      for i := 0 to |ids|
        invariant records == RecordsOf(log, slot)[..i]
      {
        records := records + [log[ids[i]]];
      }
    }

    function Candidates(p: Pattern, b: Binding): (entries: seq<Entry>)
      requires Valid()
      reads this
      ensures entries == Select(ActiveEntries(Model()), p, b)
    {
      CandidatesAreSelection(Model(), p, b);
      EntriesAt(log, SortedIds(LookUp(view, HeadIds(State(log, head, slotHistory)), p, b)))
    }

    method Query(ps: seq<Pattern>, o: Options) returns (result: QueryResult)
      requires Valid()
      ensures result == QueryOf(SelectFrom(ActiveEntries(Model())), ps, o)
    {
      result := RunQuery((p, b) reads this requires Valid() => Candidates(p, b),
                         (p, b) reads this requires Valid() => |Candidates(p, b)|, SelectFrom(ActiveEntries(Model())), ps, o);
    }

    /** The kernel's self-check, in any state: every head is a definition, and the index lists exactly the heads. It
        succeeds in every valid state. */
    method Validate() returns (ok: bool)
      ensures ok <==>
        && (forall slot :: slot in head ==> head[slot] < |log| && log[head[slot]].kind == DefineKind && log[head[slot]].fact.Some?)
        && (forall id :: id in AllIds(view.bySubjectRelation) <==> exists slot :: slot in head && head[slot] == id)
      ensures Valid() ==> ok
    {
      var headsAreDefinitions := forall slot :: slot in head ==>
        head[slot] < |log| && log[head[slot]].kind == DefineKind && log[head[slot]].fact.Some?;
      var active := set slot | slot in head :: head[slot];
      ok := headsAreDefinitions && active == AllIds(view.bySubjectRelation);
      if Valid() {
        ghost var s := Model();
        HeadsAreFacts(s);
        BucketsCover(log, HeadIds(s), SubjectRelationOf);
        forall slot | slot in head ensures log[head[slot]].kind == DefineKind {
          assert IsDefinition(s.log, s.head[slot], slot);
        }
      }
    }
  }
}
