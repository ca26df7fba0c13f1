/** The durable worker, in its serial form and in the form that derives the next epoch while the current one is
    still being written. Derivation is an arbitrary function; so is the file's fault schedule, and so is the
    choice of when a successor batch happens to be waiting. */
module Pipeline {
  import opened Words
  import opened Facts
  import opened Commits
  import opened CommitFile
  import opened Worlds
  import opened FaultyFile
  import opened EpochStore

  /** An encoded intent; what it means is up to the derivation. */
  type Intent = seq<byte>

  datatype IntentOutcome = Accepted(world: World, frame: CommitFrame) | Rejected(reason: Name)

  datatype Plan = Plan(frames: seq<CommitFrame>, outcomes: seq<IntentOutcome>, tail: World)

  type Derivation = (World, seq<Intent>) -> Plan

  /** A plan's tail is its base with the plan's frames behind it; a plan without frames leaves the base alone. */
  ghost predicate Grounded(derive: Derivation) {
    forall base, intents ::
      var plan := derive(base, intents);
      && InRange(plan.frames)
      && plan.tail.frames == base.frames + plan.frames
      && (plan.frames == [] ==> plan.tail == base)
  }

  datatype Ticket = TicketAccepted(world: World, frame: CommitFrame) | TicketRejected(reason: Name) | DurabilityFailed(error: EpochError)

  /** One ticket for each outcome, in order, with the outcome's own world or reason. */
  function RouteSuccess(plan: Plan): (tickets: seq<Ticket>)
    ensures |tickets| == |plan.outcomes|
    ensures forall i :: 0 <= i < |tickets| && plan.outcomes[i].Accepted? ==>
      tickets[i] == TicketAccepted(plan.outcomes[i].world, plan.outcomes[i].frame)
    ensures forall i :: 0 <= i < |tickets| && plan.outcomes[i].Rejected? ==>
      tickets[i] == TicketRejected(plan.outcomes[i].reason)
  {
    seq(|plan.outcomes|, i requires 0 <= i < |plan.outcomes| =>
      match plan.outcomes[i]
      case Accepted(world, frame) => TicketAccepted(world, frame)
      case Rejected(reason) => TicketRejected(reason))
  }

  /** When an epoch fails only its accepted intents fail with it; a rejection stands. */
  function RouteFailure(plan: Plan, error: EpochError): (tickets: seq<Ticket>)
    ensures |tickets| == |plan.outcomes|
    ensures forall i :: 0 <= i < |tickets| && plan.outcomes[i].Accepted? ==> tickets[i] == DurabilityFailed(error)
    ensures forall i :: 0 <= i < |tickets| && plan.outcomes[i].Rejected? ==>
      tickets[i] == TicketRejected(plan.outcomes[i].reason)
  {
    seq(|plan.outcomes|, i requires 0 <= i < |plan.outcomes| =>
      match plan.outcomes[i]
      case Accepted(_, _) => DurabilityFailed(error)
      case Rejected(reason) => TicketRejected(reason))
  }

  class DurableDatabase {
    var current: World
    const store: FileEpochStore

    ghost predicate Apart() {
      (store.io as object) != this && (store as object) != this && (store.io as object) != store
    }

    /** Readers see exactly the stored frames. */
    ghost predicate Valid()
      reads this, store, store.io
    {
      Apart() && store.Valid() && store.policy == WholeEpochTransport && current.frames == store.frames
    }

    ghost function View(): DbView
      reads this, store, store.io
    {
      DbView(current, store.View())
    }

    constructor (store: FileEpochStore, world: World)
      requires store.Valid() && store.policy == WholeEpochTransport && world.frames == store.frames
      requires (store.io as object) != store
      ensures Valid() && this.store == store && current == world
    {
      this.store, current := store, world;
    }

    /** A world may only be published once all its frames are in the store. */
    method Publish(world: World)
      requires world.frames == store.frames
      modifies this
      ensures current == world
    {
      current := world;
    }
  }

  datatype DbView = DbView(current: World, store: StoreView)

  /** One batch, serially: derive on the current world, persist, and only then publish. */
  ghost function BatchView(derive: Derivation, schedule: nat -> Outcome, d: DbView, intents: seq<Intent>): (DbView,
                           seq<Ticket>) {
    PlanView(schedule, d, derive(d.current, intents))
  }

  ghost function PlanView(schedule: nat -> Outcome, d: DbView, plan: Plan): (DbView, seq<Ticket>) {
    if plan.frames == [] then (d, RouteSuccess(plan))
    else match AppendView(WholeEpochTransport, schedule, d.store, plan.frames)
      case (Ok(_), store) => (DbView(plan.tail, store), RouteSuccess(plan))
      case (Err(error), store) => (DbView(d.current, store), RouteFailure(plan, error))
  }

  datatype Run = Run(d: DbView, tickets: seq<seq<Ticket>>, heads: seq<World>)

  /** A whole run: where it ends, every ticket's outcome, and the world readers saw after each batch. */
  ghost function RunView(derive: Derivation, schedule: nat -> Outcome, d: DbView, batches: seq<seq<Intent>>): Run
    decreases |batches|
  {
    if batches == [] then Run(d, [], [])
    else
      var before := RunView(derive, schedule, d, batches[..|batches| - 1]);
      RunOne(before, BatchView(derive, schedule, before.d, batches[|batches| - 1]))
  }

  ghost function RunOne(before: Run, step: (DbView, seq<Ticket>)): Run {
    Run(step.0, before.tickets + [step.1], before.heads + [step.0.current])
  }

  lemma RunMore(derive: Derivation, schedule: nat -> Outcome, d: DbView, batches: seq<seq<Intent>>, i: nat)
    requires i < |batches|
    ensures var before := RunView(derive, schedule, d, batches[..i]);
      RunView(derive, schedule, d, batches[..i + 1]) == RunOne(before, BatchView(derive, schedule, before.d, batches[i]))
  {
    assert batches[..i + 1][..i] == batches[..i];
  }

  // ---- The serial worker ----

  method ProcessBatch(db: DurableDatabase, derive: Derivation, intents: seq<Intent>) returns (tickets: seq<Ticket>)
    requires db.Valid() && Grounded(derive)
    modifies db, db.store, db.store.io
    ensures db.Valid()
    ensures (db.View(), tickets) == BatchView(derive, db.store.io.schedule, old(db.View()), intents)
  {
    hide FileEpochStore.Valid, AppendView, InRange;
    var plan := derive(db.current, intents);
    if plan.frames == [] {
      return RouteSuccess(plan);
    }
    var r := db.store.AppendEpoch(plan.frames);
    match r {
      case Ok(_) =>
        db.Publish(plan.tail);
        tickets := RouteSuccess(plan);
      case Err(error) =>
        tickets := RouteFailure(plan, error);
    }
  }

  method RunSerial(db: DurableDatabase, derive: Derivation, batches: seq<seq<Intent>>)
    returns (tickets: seq<seq<Ticket>>, heads: seq<World>)
    requires db.Valid() && Grounded(derive)
    modifies db, db.store, db.store.io
    ensures db.Valid()
    ensures Run(db.View(), tickets, heads) == RunView(derive, db.store.io.schedule, old(db.View()), batches)
  {
    hide DurableDatabase.Valid, DurableDatabase.View, BatchView, Grounded;
    tickets, heads := [], [];
    ghost var start := db.View();
    for i := 0 to |batches|
      invariant db.Valid()
      invariant Run(db.View(), tickets, heads) == RunView(derive, db.store.io.schedule, start, batches[..i])
    {
      RunMore(derive, db.store.io.schedule, start, batches, i);
      var routed := ProcessBatch(db, derive, batches[i]);
      ViewShowsCurrent(db);
      tickets, heads := tickets + [routed], heads + [db.current];
    }
    assert batches[..|batches|] == batches;
  }

  lemma ViewShowsCurrent(db: DurableDatabase)
    ensures db.View().current == db.current
  {
  }

  // ---- The speculative worker ----

  /** Append an epoch in two halves and, once its write is under way, derive the waiting batch on the epoch's
      unpublished tail. Nothing of the successor is written here. */
  method AppendOverlapped(store: FileEpochStore, epoch: seq<CommitFrame>, derive: Derivation, tail: World,
                          waiting: Option<seq<Intent>>)
    returns (r: Result<(), EpochError>, successor: Option<Plan>)
    requires store.Valid() && InRange(epoch) && epoch != [] && (store.io as object) != store
    modifies store, store.io
    ensures store.Valid()
    ensures (r, store.View()) == AppendView(WholeEpochTransport, store.io.schedule, old(store.View()), epoch)
    ensures successor.Some? ==> waiting.Some? && successor.value == derive(tail, waiting.value)
  {
    hide Stored, Continues, Fits, InRange, Reopens, RepairOutcome, Digest;
    hide FileBytes, Arena, WriteView, SyncView, PerFrameView;
    successor := None;
    var prepared := store.Prepare(epoch);
    if prepared.Err? {
      return Err(prepared.error), None;
    }
    var start := prepared.value.checkpoint.startOffset;
    var arena := Collect(prepared.value.records);
    ghost var good := store.io.bytes;
    var accepted := store.io.Submit(start, arena);
    if !accepted {
      assert good[..start] == good;
      r := store.Finish(prepared.value, Some(EpochWrite));
      return;
    }
    if waiting.Some? {
      successor := Some(derive(tail, waiting.value));
    }
    var ok := store.io.Complete(start, arena);
    assert good[..start] == good && Overwrite(good, start, arena) == good + arena;
    r := store.Finish(prepared.value, if ok then None else Some(EpochWrite));
  }

  method PersistOverlapped(db: DurableDatabase, derive: Derivation, plan: Plan, waiting: Option<seq<Intent>>)
    returns (tickets: seq<Ticket>, persisted: bool, successor: Option<Plan>)
    requires db.Valid() && plan.frames != []
    requires InRange(plan.frames) && plan.tail.frames == db.current.frames + plan.frames
    modifies db, db.store, db.store.io
    ensures db.Valid()
    ensures (db.View(), tickets) == PlanView(db.store.io.schedule, old(db.View()), plan)
    ensures db.current == if persisted then plan.tail else old(db.current)
    ensures successor.Some? ==> waiting.Some? && successor.value == derive(plan.tail, waiting.value)
  {
    hide FileEpochStore.Valid, AppendView, InRange;
    var r;
    r, successor := AppendOverlapped(db.store, plan.frames, derive, plan.tail, waiting);
    persisted := r.Ok?;
    match r {
      case Ok(_) =>
        AppendedFrames(db.store.io.schedule, old(db.store.View()), plan.frames);
        db.Publish(plan.tail);
        tickets := RouteSuccess(plan);
      case Err(error) =>
        AppendedFrames(db.store.io.schedule, old(db.store.View()), plan.frames);
        tickets := RouteFailure(plan, error);
    }
  }

  /** An epoch that is appended is appended whole; one that is not leaves the frames alone. */
  lemma AppendedFrames(schedule: nat -> Outcome, v: StoreView, epoch: seq<CommitFrame>)
    ensures var (r, after) := AppendView(WholeEpochTransport, schedule, v, epoch);
      after.frames == if r.Ok? then v.frames + epoch else v.frames
  {
    assert v.frames + [] == v.frames;
  }

  /** Settle the prepared batch. A successor derived on a tail that was not persisted is derived again on the world
      that readers see. */
  method SettleBatch(db: DurableDatabase, derive: Derivation, plan: Plan, ghost intents: seq<Intent>,
                     waiting: Option<seq<Intent>>)
    returns (tickets: seq<Ticket>, upcoming: Option<Plan>)
    requires db.Valid() && Grounded(derive) && plan == derive(db.current, intents)
    modifies db, db.store, db.store.io
    ensures db.Valid()
    ensures (db.View(), tickets) == BatchView(derive, db.store.io.schedule, old(db.View()), intents)
    ensures upcoming.Some? ==> waiting.Some? && upcoming.value == derive(db.current, waiting.value)
  {
    hide FileEpochStore.Valid, FileEpochStore.View, AppendView, InRange;
    if plan.frames == [] {
      db.Publish(plan.tail);
      return RouteSuccess(plan), if waiting.Some? then Some(derive(db.current, waiting.value)) else None;
    }
    var persisted, successor;
    tickets, persisted, successor := PersistOverlapped(db, derive, plan, waiting);
    upcoming := if successor.None? || persisted then successor else Some(derive(db.current, waiting.value));
  }

  /** One pipeline session: it starts with a claimed batch and goes on while successors are waiting. */
  method Session(db: DurableDatabase, derive: Derivation, batches: seq<seq<Intent>>, first: nat, available: nat -> bool,
                 tickets0: seq<seq<Ticket>>, heads0: seq<World>, ghost start: DbView)
    returns (next: nat, tickets: seq<seq<Ticket>>, heads: seq<World>)
    requires db.Valid() && Grounded(derive) && first < |batches|
    requires Run(db.View(), tickets0, heads0) == RunView(derive, db.store.io.schedule, start, batches[..first])
    modifies db, db.store, db.store.io
    ensures db.Valid() && first < next <= |batches|
    ensures Run(db.View(), tickets, heads) == RunView(derive, db.store.io.schedule, start, batches[..next])
  {
    hide DurableDatabase.Valid, DurableDatabase.View, BatchView, Grounded;
    next, tickets, heads := first, tickets0, heads0;
    var plan := derive(db.current, batches[next]);
    while true
      invariant db.Valid() && first <= next < |batches|
      invariant Run(db.View(), tickets, heads) == RunView(derive, db.store.io.schedule, start, batches[..next])
      invariant plan == derive(db.current, batches[next])
      decreases |batches| - next
    {
      RunMore(derive, db.store.io.schedule, start, batches, next);
      var waiting := if next + 1 < |batches| && available(next + 1) then Some(batches[next + 1]) else None;
      var routed, upcoming := SettleBatch(db, derive, plan, batches[next], waiting);
      ViewShowsCurrent(db);
      tickets, heads := tickets + [routed], heads + [db.current];
      next := next + 1;
      if upcoming.None? {
        return;
      }
      plan := upcoming.value;
    }
  }

  method RunPipeline(db: DurableDatabase, derive: Derivation, batches: seq<seq<Intent>>, available: nat -> bool)
    returns (tickets: seq<seq<Ticket>>, heads: seq<World>)
    requires db.Valid() && Grounded(derive)
    modifies db, db.store, db.store.io
    ensures db.Valid()
    ensures Run(db.View(), tickets, heads) == RunView(derive, db.store.io.schedule, old(db.View()), batches)
  {
    hide DurableDatabase.Valid, DurableDatabase.View, BatchView, Grounded;
    tickets, heads := [], [];
    ghost var start := db.View();
    var next := 0;
    while next < |batches|
      invariant db.Valid() && next <= |batches|
      invariant Run(db.View(), tickets, heads) == RunView(derive, db.store.io.schedule, start, batches[..next])
    {
      next, tickets, heads := Session(db, derive, batches, next, available, tickets, heads, start);
    }
    assert batches[..|batches|] == batches;
  }

  // ---- Both ----

  /** Two databases that show the same and have equal fault schedules ahead, one worked serially and one
      speculatively, in any interleaving of arrivals: readers see the same worlds, the stores hold the same frames in
      the same state, every ticket has the same outcome. */
  method Differential(serial: DurableDatabase, pipelined: DurableDatabase, derive: Derivation,
                      batches: seq<seq<Intent>>,
                      available: nat -> bool)
    returns (tickets: seq<seq<Ticket>>, heads: seq<World>, tickets': seq<seq<Ticket>>, heads': seq<World>)
    requires serial.Valid() && pipelined.Valid() && Grounded(derive)
    requires {serial, serial.store, serial.store.io} !! {pipelined, pipelined.store, pipelined.store.io}
    requires serial.View() == pipelined.View() && serial.store.io.schedule == pipelined.store.io.schedule
    modifies serial, serial.store, serial.store.io, pipelined, pipelined.store, pipelined.store.io
    ensures serial.Valid() && pipelined.Valid()
    ensures tickets == tickets' && heads == heads' && serial.View() == pipelined.View()
    ensures Run(serial.View(), tickets, heads) == RunView(derive, serial.store.io.schedule, old(serial.View()), batches)
  {
    hide RunView, Grounded, FileEpochStore.Valid;
    tickets, heads := RunSerial(serial, derive, batches);
    tickets', heads' := RunPipeline(pipelined, derive, batches, available);
  }

  method EmptyDatabase(schedule: nat -> Outcome) returns (db: DurableDatabase)
    ensures fresh(db) && fresh(db.store) && fresh(db.store.io) && db.Valid()
    ensures db.store.io.schedule == schedule && db.View() == DbView(GENESIS_WORLD, StoreView([], Healthy, 0))
  {
    var header := FileHeader();
    var io := new File(header, schedule);
    EmptyFile();
    var digest := ExtendDigest(FNV_OFFSET_BASIS, header);
    var store := new FileEpochStore(io, WholeEpochTransport, [], digest);
    db := new DurableDatabase(store, GENESIS_WORLD);
  }

  lemma EmptyFile()
    ensures Stored([]) && FileBytes([]) == FileHeader()
  {
  }

  // ---- What readers see is stored ----

  /** Every plan has one outcome for each intent, and accepts it into a world on the way to its tail. */
  ghost predicate OnTheWay(derive: Derivation) {
    forall base, intents ::
      var plan := derive(base, intents);
      && |plan.outcomes| == |intents|
      && forall i :: 0 <= i < |plan.outcomes| && plan.outcomes[i].Accepted? ==> plan.outcomes[i].world.frames <= plan.tail.frames
  }

  ghost predicate TicketsStored(tickets: seq<Ticket>, frames: seq<CommitFrame>) {
    forall i :: 0 <= i < |tickets| && tickets[i].TicketAccepted? ==> tickets[i].world.frames <= frames
  }

  /** After one batch, whatever became of its epoch, readers still see exactly the stored frames, no stored frame is
      lost, and no ticket holds a world that is not stored. */
  lemma BatchIsStored(derive: Derivation, schedule: nat -> Outcome, d: DbView, intents: seq<Intent>)
    requires Grounded(derive) && d.current.frames == d.store.frames
    ensures var (after, tickets) := BatchView(derive, schedule, d, intents);
      && after.current.frames == after.store.frames && d.store.frames <= after.store.frames
      && (OnTheWay(derive) ==> |tickets| == |intents| && TicketsStored(tickets, after.store.frames))
  {
    var plan := derive(d.current, intents);
    hide AppendView, InRange;
    AppendedFrames(schedule, d.store, plan.frames);
  }

  /** Over any run under any schedule: the world readers see after a batch has exactly the frames stored by then, and
      those stay stored; every intent has one ticket, and an accepted one holds a stored world. */
  lemma {:induction false} RunIsStored(derive: Derivation, schedule: nat -> Outcome, d: DbView,
                                       batches: seq<seq<Intent>>, i: nat)
    requires Grounded(derive) && d.current.frames == d.store.frames && i < |batches|
    ensures var run, byThen := RunView(derive, schedule, d, batches), RunView(derive, schedule, d, batches[..i + 1]);
      && |run.heads| == |run.tickets| == |batches|
      && run.heads[i] == byThen.d.current && run.heads[i].frames == byThen.d.store.frames <= run.d.store.frames
      && run.d.current.frames == run.d.store.frames
      && (OnTheWay(derive) ==> |run.tickets[i]| == |batches[i]| && TicketsStored(run.tickets[i], byThen.d.store.frames))
    decreases |batches|
  {
    hide BatchView, Grounded, OnTheWay, TicketsStored;
    var n := |batches| - 1;
    var before := RunView(derive, schedule, d, batches[..n]);
    if n > 0 {
      RunIsStored(derive, schedule, d, batches[..n], if i < n then i else 0);
      assert i < n ==> batches[..n][..i + 1] == batches[..i + 1];
    }
    BatchIsStored(derive, schedule, before.d, batches[n]);
    assert batches[..n + 1] == batches;
  }

  // ---- What a ticket says ----

  /** A ticket says that its intent was accepted, with its world and frame, exactly when the store has taken the batch's
      frames; otherwise it passes on the error of the append. A rejection stands whatever became of the epoch. */
  ghost predicate Told(ticket: Ticket, outcome: IntentOutcome, stored: bool, append: Result<(), EpochError>) {
    match outcome
    case Rejected(reason) => ticket == TicketRejected(reason)
    case Accepted(world, frame) =>
      && (stored <==> ticket == TicketAccepted(world, frame))
      && (!stored ==> append.Err? && ticket == DurabilityFailed(append.error))
  }

  lemma BatchIsTold(derive: Derivation, schedule: nat -> Outcome, d: DbView, intents: seq<Intent>, i: nat)
    requires Grounded(derive) && i < |derive(d.current, intents).outcomes|
    ensures var plan := derive(d.current, intents);
      var (after, tickets) := BatchView(derive, schedule, d, intents);
      var (append, store) := AppendView(WholeEpochTransport, schedule, d.store, plan.frames);
      var stored := after.store.frames == d.store.frames + plan.frames;
      && |tickets| == |plan.outcomes| && Told(tickets[i], plan.outcomes[i], stored, append)
      && after.current == (if stored then plan.tail else d.current)
      && after.store == (if plan.frames == [] then d.store else store)
  {
    hide AppendView, InRange;
    var plan := derive(d.current, intents);
    AppendedFrames(schedule, d.store, plan.frames);
    assert d.store.frames + [] == d.store.frames;
    if plan.frames != [] {
      assert |d.store.frames + plan.frames| > |d.store.frames|;
    }
  }

  /** The same for each batch of a run: the views between the batches form a chain that starts at the first one. */
  lemma RunIsTold(derive: Derivation, schedule: nat -> Outcome, d: DbView, batches: seq<seq<Intent>>, j: nat, i: nat)
    requires Grounded(derive) && j < |batches|
    ensures RunView(derive, schedule, d, []).d == d && |RunView(derive, schedule, d, batches).tickets| == |batches|
    ensures var before, after := RunView(derive, schedule, d, batches[..j]).d, RunView(derive, schedule, d, batches[..j + 1]).d;
      var plan, tickets := derive(before.current, batches[j]), RunView(derive, schedule, d, batches).tickets[j];
      var (append, store) := AppendView(WholeEpochTransport, schedule, before.store, plan.frames);
      var stored := after.store.frames == before.store.frames + plan.frames;
      && |tickets| == |plan.outcomes|
      && (i < |tickets| ==> Told(tickets[i], plan.outcomes[i], stored, append))
      && (i < |tickets| ==> after.current == (if stored then plan.tail else before.current))
  {
    hide BatchView, Grounded, Told, AppendView;
    var before := RunView(derive, schedule, d, batches[..j]);
    RunMore(derive, schedule, d, batches, j);
    RunLengths(derive, schedule, d, batches[..j]);
    RunKeepsTickets(derive, schedule, d, batches, j);
    TicketCount(derive, schedule, before.d, batches[j]);
    if i < |derive(before.d.current, batches[j]).outcomes| {
      BatchIsTold(derive, schedule, before.d, batches[j], i);
    }
  }

  lemma TicketCount(derive: Derivation, schedule: nat -> Outcome, d: DbView, intents: seq<Intent>)
    ensures |BatchView(derive, schedule, d, intents).1| == |derive(d.current, intents).outcomes|
  {
    hide AppendView;
  }

  lemma {:induction false} RunLengths(derive: Derivation, schedule: nat -> Outcome, d: DbView, batches: seq<seq<Intent>>)
    ensures |RunView(derive, schedule, d, batches).tickets| == |batches|
    decreases |batches|
  {
    hide BatchView;
    if batches != [] {
      RunLengths(derive, schedule, d, batches[..|batches| - 1]);
    }
  }

  lemma {:induction false} RunKeepsTickets(derive: Derivation, schedule: nat -> Outcome, d: DbView,
                                           batches: seq<seq<Intent>>, j: nat)
    requires j < |batches|
    ensures |RunView(derive, schedule, d, batches).tickets| == |batches|
    ensures |RunView(derive, schedule, d, batches[..j + 1]).tickets| == j + 1
    ensures RunView(derive, schedule, d, batches).tickets[j] == RunView(derive, schedule, d, batches[..j + 1]).tickets[j]
    decreases |batches|
  {
    hide BatchView;
    RunLengths(derive, schedule, d, batches);
    RunLengths(derive, schedule, d, batches[..j + 1]);
    var front := batches[..|batches| - 1];
    if j < |front| {
      RunKeepsTickets(derive, schedule, d, front, j);
      assert front[..j + 1] == batches[..j + 1];
    } else {
      assert batches[..j + 1] == batches;
    }
  }
}
