/** The projection of any history answers like the kernel that replays it. */
module ProjectionAgreement {
  import opened Facts
  import opened Store
  import opened Query
  import opened QueryLaws
  import opened Commits
  import opened Projection
  import opened KernelAgreement
  import C = Calls

  ghost function Replayer(frames: seq<CommitFrame>): (m: C.Machine)
    ensures Inv(m.store)
  {
    C.InitialIsSound();
    C.AfterAll(C.INITIAL, CallsOf(Flatten(frames)))
  }

  /** Stacks, active facts and record ids of the projection are the kernel's. */
  lemma ProjectionIsKernel(projection: VmQueryProjection, frames: seq<CommitFrame>)
    requires projection.definitions == Replay(Flatten(frames)).stacks
    requires TopsApart(projection.definitions) ==>
      Rising(projection.active) && forall e :: e in projection.active <==> e in Tops(projection.definitions)
    ensures projection.definitions == StacksOf(Replayer(frames).store)
    ensures projection.active == ActiveEntries(Replayer(frames).store)
  {
    hide Inv, Replay, StacksOf, TopsApart, Tops, Rising, ActiveEntries;
    var s := Replayer(frames).store;
    ReplayIsKernel(Flatten(frames));
    KernelTopsApart(s);
    TopsAreActive(s);
    RisingUnique(projection.active, ActiveEntries(s));
  }

  method ObserveProjection(frames: seq<CommitFrame>, slot: Name, ps: seq<Pattern>, o: Options)
    returns (resolved: Option<Fact>, definitions: seq<Fact>, result: QueryResult)
    ensures var s := Replayer(frames).store;
      && resolved == ResolveIn(StacksOf(s), slot)
      && definitions == DefinitionsIn(StacksOf(s), slot)
      && result == QueryOf(SelectFrom(ActiveEntries(s)), ps, o)
  {
    hide Inv, Replay, StacksOf, TopsApart, Tops, Rising, ActiveEntries, QueryOf, Replayer, VmQueryProjection.Valid;
    var projection := new VmQueryProjection.FromFrames(frames);
    ProjectionIsKernel(projection, frames);
    resolved := projection.Resolve(slot);
    definitions := projection.Definitions(slot);
    result := projection.Query(ps, o);
  }

  /** Replaying any frames into stacks or into a linked-head kernel gives the same resolution, definitions
      and query results under every option, limits and metrics included. */
  method DifferentialReplay(frames: seq<CommitFrame>, slot: Name, ps: seq<Pattern>, o: Options)
    returns (seen: Observation, resolved: Option<Fact>, definitions: seq<Fact>, result: QueryResult)
    ensures seen == Observed(Replayer(frames).store, slot, ps, o)
    ensures seen.resolved == resolved && seen.definitions == definitions && seen.result == result
  {
    hide Inv, LegacyKernel.Kernel.Valid, C.AfterAll, C.ReturnedAll;
    var kernel, _ := RunLegacy(CallsOf(Flatten(frames)));
    seen := ObserveLegacy(kernel, slot, ps, o);
    resolved, definitions, result := ObserveProjection(frames, slot, ps, o);
  }
}
