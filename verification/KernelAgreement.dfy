/** Both kernels, driven by any sequence of calls, answer every question alike. */
module KernelAgreement {
  import opened Facts
  import opened Store
  import opened Calls
  import opened Query
  import opened QueryLaws
  import opened Indexes
  import opened ViewLaws
  import opened Containers
  import opened Signature
  import opened SharedView
  import LegacyKernel
  import SharedKernel

  method CallLegacy(kernel: LegacyKernel.Kernel, call: Call) returns (id: nat)
    requires kernel.Valid()
    modifies kernel
    ensures kernel.Valid()
    ensures Machine(kernel.Model(), kernel.nextEntity) == After(old(Machine(kernel.Model(), kernel.nextEntity)), call)
    ensures id == Returned(old(Machine(kernel.Model(), kernel.nextEntity)), call)
  {
    match call {
      case NewEntity => id := kernel.NewEntity();
      case Define(slot, fact) => id := kernel.Define(slot, fact);
      case Forget(slot) => id := kernel.Forget(slot);
    }
  }

  method CallShared(kernel: SharedKernel.Kernel, call: Call) returns (id: nat)
    requires kernel.Valid()
    modifies kernel.Repr()
    ensures kernel.Valid()
    ensures Machine(kernel.Model(), kernel.nextEntity) == After(old(Machine(kernel.Model(), kernel.nextEntity)), call)
    ensures id == Returned(old(Machine(kernel.Model(), kernel.nextEntity)), call)
  {
    hide SharedKernel.Kernel.Valid;
    match call {
      case NewEntity => id := kernel.NewEntity();
      case Define(slot, fact) => id := kernel.Define(slot, fact);
      case Forget(slot) => id := kernel.Forget(slot);
    }
  }

  /** After any calls the legacy kernel holds the abstract machine and has returned its ids. */
  method RunLegacy(calls: seq<Call>) returns (kernel: LegacyKernel.Kernel, ids: seq<nat>)
    ensures fresh(kernel) && kernel.Valid()
    ensures Inv(INITIAL.store) && ids == ReturnedAll(INITIAL, calls)
    ensures Machine(kernel.Model(), kernel.nextEntity) == AfterAll(INITIAL, calls)
  {
    hide LegacyKernel.Kernel.Valid, After, Inv, Returned;
    InitialIsSound();
    kernel := new LegacyKernel.Kernel();
    ids := [];
    for i := 0 to |calls|
      invariant fresh(kernel) && kernel.Valid()
      invariant Machine(kernel.Model(), kernel.nextEntity) == AfterAll(INITIAL, calls[..i])
      invariant ids == ReturnedAll(INITIAL, calls[..i])
    {
      assert calls[..i + 1][..i] == calls[..i];
      var id := CallLegacy(kernel, calls[i]);
      ids := ids + [id];
    }
    assert calls[..|calls|] == calls;
  }

  /** And so does the shared kernel. */
  method RunShared(hashes: SharedKernel.Hashes, calls: seq<Call>) returns (kernel: SharedKernel.Kernel, ids: seq<nat>)
    ensures fresh(kernel.Repr()) && kernel.Valid()
    ensures Inv(INITIAL.store) && ids == ReturnedAll(INITIAL, calls)
    ensures Machine(kernel.Model(), kernel.nextEntity) == AfterAll(INITIAL, calls)
  {
    hide SharedKernel.Kernel.Valid, After, Inv, Returned;
    InitialIsSound();
    kernel := new SharedKernel.Kernel(hashes);
    ids := [];
    for i := 0 to |calls|
      invariant fresh(kernel.Repr()) && kernel.Valid()
      invariant Machine(kernel.Model(), kernel.nextEntity) == AfterAll(INITIAL, calls[..i])
      invariant ids == ReturnedAll(INITIAL, calls[..i])
    {
      assert calls[..i + 1][..i] == calls[..i];
      var id := CallShared(kernel, calls[i]);
      ids := ids + [id];
    }
    assert calls[..|calls|] == calls;
  }

  /** Everything a kernel can be asked about a slot and a query. */
  datatype Observation = Observation(resolved: Option<Fact>, definitions: seq<Fact>, history: seq<Record>,
                                     result: QueryResult, sound: bool)

  ghost function Observed(s: State, slot: Name, ps: seq<Pattern>, o: Options): Observation
    requires Inv(s)
  {
    HeadsAreDefinitions(s);
    Observation(ResolveIn(StacksOf(s), slot), DefinitionsIn(StacksOf(s), slot), RecordsOf(s.log, slot),
                QueryOf(SelectFrom(ActiveEntries(s)), ps, o), true)
  }

  method ObserveLegacy(kernel: LegacyKernel.Kernel, slot: Name, ps: seq<Pattern>, o: Options)
    returns (seen: Observation)
    requires kernel.Valid()
    ensures seen == Observed(kernel.Model(), slot, ps, o)
  {
    hide Inv, ViewOf, HeadIds, StacksOf, QueryOf, DefinitionsIn, ResolveIn, RecordsOf, ActiveEntries;
    var resolved := kernel.Resolve(slot);
    var definitions := kernel.Definitions(slot);
    var history := kernel.History(slot);
    var result := kernel.Query(ps, o);
    var sound := kernel.Validate();
    seen := Observation(resolved, definitions, history, result, sound);
  }

  method AskShared(kernel: SharedKernel.Kernel, slot: Name) returns (definitions: seq<Fact>, history: seq<Record>)
    requires kernel.Valid()
    ensures kernel.Valid() && Inv(kernel.Model())
    ensures definitions == DefinitionsIn(StacksOf(kernel.Model()), slot)
    ensures history == RecordsOf(kernel.Model().log, slot)
  {
    hide ShardedMap.Valid, SharedKernel.DefinitionStore.Valid, CurrentView.Valid, ViewOf, SignatureOfSet;
    hide Inv, StacksOf, DefinitionsIn, RecordsOf, SortedIds, HeadIds;
    definitions := kernel.Definitions(slot);
    history := kernel.History(slot);
  }

  method CheckShared(kernel: SharedKernel.Kernel) returns (sound: bool)
    requires kernel.Valid()
    ensures kernel.Valid() && sound
  {
    hide ShardedMap.Valid, SharedKernel.DefinitionStore.Valid, CurrentView.Valid, ViewOf, SignatureOfSet, Inv, HeadIds;
    var fast := kernel.ValidateFast();
    var full := kernel.ValidateFull();
    sound := fast && full;
  }

  method ObserveShared(kernel: SharedKernel.Kernel, slot: Name, ps: seq<Pattern>, o: Options)
    returns (seen: Observation)
    requires kernel.Valid()
    ensures Inv(kernel.Model()) && seen == Observed(kernel.Model(), slot, ps, o)
  {
    hide ShardedMap.Valid, SharedKernel.DefinitionStore.Valid, CurrentView.Valid, ViewOf;
    hide SignatureOfSet, SharedKernel.Kernel.Resolve;
    hide Inv, StacksOf, QueryOf, DefinitionsIn, ResolveIn, RecordsOf;
    hide ActiveEntries, SortedIds, HeadIds, SelectFrom, AllDefinitions;
    var resolved := kernel.Resolve(slot);
    var sound := CheckShared(kernel);
    var definitions, history := AskShared(kernel, slot);
    var result := kernel.Query(ps, o);
    seen := Observation(resolved, definitions, history, result, sound);
  }

  /** The differential check: after any calls both kernels have returned the same ids and show the same definitions,
      history, resolution and whole result of any query under any options, metrics and chosen path included; both are
      what the abstract machine has, and all self-checks pass. */
  method Differential(hashes: SharedKernel.Hashes, calls: seq<Call>, slot: Name, ps: seq<Pattern>, o: Options)
    returns (legacyIds: seq<nat>, sharedIds: seq<nat>, legacySeen: Observation, sharedSeen: Observation)
    ensures Inv(INITIAL.store)
    ensures legacyIds == sharedIds == ReturnedAll(INITIAL, calls)
    ensures legacySeen == sharedSeen == Observed(AfterAll(INITIAL, calls).store, slot, ps, o)
    ensures legacySeen.sound && sharedSeen.sound
  {
    hide SharedKernel.Kernel.Valid, LegacyKernel.Kernel.Valid, AfterAll, ReturnedAll, Inv;
    var legacy, shared;
    legacy, legacyIds := RunLegacy(calls);
    legacySeen := ObserveLegacy(legacy, slot, ps, o);
    shared, sharedIds := RunShared(hashes, calls);
    sharedSeen := ObserveShared(shared, slot, ps, o);
  }
}
