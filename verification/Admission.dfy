/** The admission worker: intents become durable in numbered epochs, at most a window ahead of their
    materialization, and everything takes effect in the order it was sent. */
module Admission {
  import opened Words
  import opened Facts
  import opened Framing
  import opened Worlds
  import opened FaultyFile
  import opened Journal
  import P = Pipeline

  /** A submitted intent, known by its ticket. */
  datatype Staged = Staged(ticket: nat, intent: P.Intent)

  datatype Command = Single(staged: Staged) | Whole(batch: seq<Staged>) | Barrier(id: nat)

  datatype EpochBatch = EpochBatch(id: nat, staged: seq<Staged>)

  // ---- The order of effects ----

  datatype Item = IntentItem(staged: Staged) | BarrierItem(id: nat)

  function ItemsOf(staged: seq<Staged>): (r: seq<Item>)
    ensures |r| == |staged| && forall i :: 0 <= i < |r| ==> r[i] == IntentItem(staged[i])
  {
    seq(|staged|, i requires 0 <= i < |staged| => IntentItem(staged[i]))
  }

  function CommandItems(command: Command): seq<Item> {
    match command
    case Single(staged) => ItemsOf([staged])
    case Whole(batch) => ItemsOf(batch)
    case Barrier(id) => [BarrierItem(id)]
  }

  function Items(commands: seq<Command>): seq<Item> {
    if commands == [] then [] else Items(commands[..|commands| - 1]) + CommandItems(commands[|commands| - 1])
  }

  function BatchItems(batches: seq<EpochBatch>): seq<Item> {
    if batches == [] then [] else BatchItems(batches[..|batches| - 1]) + ItemsOf(batches[|batches| - 1].staged)
  }

  lemma ItemsMore(commands: seq<Command>, command: Command)
    ensures Items(commands + [command]) == Items(commands) + CommandItems(command)
  {
    assert (commands + [command])[..|commands|] == commands;
  }

  lemma ItemsOfFew(command: Command)
    ensures Items([]) == [] && Items([command]) == CommandItems(command)
  {
    assert [command] == [] + [command];
    ItemsMore([], command);
  }

  lemma BatchItemsMore(batches: seq<EpochBatch>, batch: EpochBatch)
    ensures BatchItems(batches + [batch]) == BatchItems(batches) + ItemsOf(batch.staged)
  {
    assert (batches + [batch])[..|batches|] == batches;
  }

  lemma {:induction false} BatchItemsFirst(batch: EpochBatch, batches: seq<EpochBatch>)
    ensures BatchItems([batch] + batches) == ItemsOf(batch.staged) + BatchItems(batches)
    decreases |batches|
  {
    if batches == [] {
      assert [batch] + batches == [] + [batch];
      BatchItemsMore([], batch);
    } else {
      var front, last := batches[..|batches| - 1], batches[|batches| - 1];
      BatchItemsFirst(batch, front);
      assert front + [last] == batches && [batch] + batches == ([batch] + front) + [last];
      BatchItemsMore([batch] + front, last);
      BatchItemsMore(front, last);
    }
  }

  /** What was received is what is done, what is owed, what lies between, and what was put aside, in this order. */
  ghost predicate Accounts(commands: seq<Command>, done: seq<Item>, owed: seq<EpochBatch>, between: seq<Item>,
                           pending: seq<Command>) {
    Items(commands) == done + BatchItems(owed) + between + Items(pending)
  }

  lemma NothingToAccount()
    ensures Accounts([], [], [], [], [])
  {
  }

  lemma SubmitAccounts(commands: seq<Command>, done: seq<Item>, owed: seq<EpochBatch>, batch: EpochBatch,
                       pending: seq<Command>)
    requires Accounts(commands, done, owed, ItemsOf(batch.staged), pending)
    ensures Accounts(commands, done, owed + [batch], [], pending)
  {
    hide Items, BatchItems, ItemsOf;
    BatchItemsMore(owed, batch);
    assert done + BatchItems(owed) + ItemsOf(batch.staged) == done + (BatchItems(owed) + ItemsOf(batch.staged)) + [];
  }

  lemma ApplyAccounts(commands: seq<Command>, done: seq<Item>, batch: EpochBatch, owed: seq<EpochBatch>,
                      between: seq<Item>, pending: seq<Command>)
    requires Accounts(commands, done, [batch] + owed, between, pending)
    ensures Accounts(commands, done + ItemsOf(batch.staged), owed, between, pending)
  {
    hide Items, BatchItems, ItemsOf;
    BatchItemsFirst(batch, owed);
    assert done + (ItemsOf(batch.staged) + BatchItems(owed)) == done + ItemsOf(batch.staged) + BatchItems(owed);
  }

  lemma BarrierAccounts(commands: seq<Command>, done: seq<Item>, id: nat, pending: seq<Command>)
    requires Accounts(commands, done, [], [BarrierItem(id)], pending)
    ensures Accounts(commands, done + [BarrierItem(id)], [], [], pending)
  {
    hide Items;
    assert done + [] + [BarrierItem(id)] == done + [BarrierItem(id)] + [] + [];
  }

  lemma AccountsAre(commands: seq<Command>, done: seq<Item>, owed: seq<EpochBatch>, between: seq<Item>,
                    pending: seq<Command>)
    ensures Accounts(commands, done, owed, between, pending)
       <==> Items(commands) == done + BatchItems(owed) + between + Items(pending)
    ensures between == [] ==> done + BatchItems(owed) + between == done + BatchItems(owed)
  {
  }

  lemma DoneIsPrefix(commands: seq<Command>, done: seq<Item>, owed: seq<EpochBatch>, between: seq<Item>,
                     pending: seq<Command>)
    requires Accounts(commands, done, owed, between, pending)
    ensures done <= Items(commands)
  {
  }

  function IntentsOf(staged: seq<Staged>): (r: seq<P.Intent>)
    ensures |r| == |staged| && forall i :: 0 <= i < |r| ==> r[i] == staged[i].intent
  {
    seq(|staged|, i requires 0 <= i < |staged| => staged[i].intent)
  }

  /** The world that replaying a journal ends in. */
  function ReplayWorld(derive: P.Derivation, epochs: seq<seq<P.Intent>>): World {
    if epochs == [] then GENESIS_WORLD
    else derive(ReplayWorld(derive, epochs[..|epochs| - 1]), epochs[|epochs| - 1]).tail
  }

  /** Replaying more epochs only adds to the history: each epoch is derived on the world that the ones before it left,
      and what it accepts comes behind theirs. */
  lemma {:induction false} ReplayAppends(derive: P.Derivation, epochs: seq<seq<P.Intent>>, n: nat)
    requires P.Grounded(derive) && n <= |epochs|
    ensures ReplayWorld(derive, epochs[..n]).frames <= ReplayWorld(derive, epochs).frames
    ensures n < |epochs| ==>
      var before := ReplayWorld(derive, epochs[..n]);
      before.frames + derive(before, epochs[n]).frames <= ReplayWorld(derive, epochs).frames
    decreases |epochs|
  {
    hide P.Grounded;
    if n == |epochs| {
      assert epochs[..n] == epochs;
    } else {
      var front := epochs[..|epochs| - 1];
      assert front[..n] == epochs[..n];
      PlanAppends(derive, ReplayWorld(derive, front), epochs[|epochs| - 1]);
      ReplayAppends(derive, front, n);
    }
  }

  lemma PlanAppends(derive: P.Derivation, base: World, intents: seq<P.Intent>)
    requires P.Grounded(derive)
    ensures derive(base, intents).tail.frames == base.frames + derive(base, intents).frames
  {
  }

  method ReplayEpochs(derive: P.Derivation, epochs: seq<seq<P.Intent>>) returns (world: World)
    ensures world == ReplayWorld(derive, epochs)
  {
    world := GENESIS_WORLD;
    for i := 0 to |epochs|
      invariant world == ReplayWorld(derive, epochs[..i])
    {
      assert epochs[..i + 1][..i] == epochs[..i];
      world := derive(world, epochs[i]).tail;
    }
    assert epochs[..|epochs|] == epochs;
  }

  /** Journal ids are contiguous and every epoch written was acknowledged under its own id. */
  ghost predicate NumberedFrom(recovered: seq<seq<P.Intent>>, journal: seq<seq<P.Intent>>, receipts: seq<EpochBatch>) {
    && recovered <= journal && |journal| == |recovered| + |receipts|
    && forall i :: 0 <= i < |receipts| ==>
         receipts[i].id == |recovered| + i + 1 && IntentsOf(receipts[i].staged) == journal[|recovered| + i]
  }

  lemma AdmitKeepsNumbers(recovered: seq<seq<P.Intent>>, journal: seq<seq<P.Intent>>, receipts: seq<EpochBatch>,
                          batch: EpochBatch)
    requires NumberedFrom(recovered, journal, receipts) && batch.id == |journal| + 1
    ensures NumberedFrom(recovered, journal + [IntentsOf(batch.staged)], receipts + [batch])
  {
    hide IntentsOf;
  }

  /** The published world and the outcomes are those of replaying the applied epochs. */
  ghost predicate ReplayedTo(derive: P.Derivation, start: nat, journal: seq<seq<P.Intent>>, applied: nat,
                             outcomes: seq<seq<P.IntentOutcome>>, current: World)
  {
    && start <= applied <= |journal| && |outcomes| == applied - start
    && current == ReplayWorld(derive, journal[..applied])
    && forall i :: 0 <= i < |outcomes| ==> outcomes[i] == OutcomesAt(derive, journal, start + i)
  }

  ghost function OutcomesAt(derive: P.Derivation, journal: seq<seq<P.Intent>>, n: nat): seq<P.IntentOutcome>
    requires n < |journal|
  {
    derive(ReplayWorld(derive, journal[..n]), journal[n]).outcomes
  }

  lemma AdmitKeepsReplay(derive: P.Derivation, start: nat, journal: seq<seq<P.Intent>>, applied: nat,
                         outcomes: seq<seq<P.IntentOutcome>>, current: World, next: seq<P.Intent>)
    requires ReplayedTo(derive, start, journal, applied, outcomes, current)
    ensures ReplayedTo(derive, start, journal + [next], applied, outcomes, current)
  {
    assert (journal + [next])[..applied] == journal[..applied];
    forall i | 0 <= i < |outcomes| ensures outcomes[i] == OutcomesAt(derive, journal + [next], start + i) {
      assert (journal + [next])[..start + i] == journal[..start + i];
      assert outcomes[i] == OutcomesAt(derive, journal, start + i);
    }
  }

  lemma ApplyKeepsReplay(derive: P.Derivation, start: nat, journal: seq<seq<P.Intent>>, applied: nat,
                         outcomes: seq<seq<P.IntentOutcome>>, current: World)
    requires ReplayedTo(derive, start, journal, applied, outcomes, current) && applied < |journal|
    ensures var plan := derive(current, journal[applied]);
      ReplayedTo(derive, start, journal, applied + 1, outcomes + [plan.outcomes], plan.tail)
  {
    assert journal[..applied + 1][..applied] == journal[..applied];
    assert OutcomesAt(derive, journal, applied) == derive(current, journal[applied]).outcomes;
  }

  function Optional<T>(o: Option<T>): seq<T> {
    match o case None => [] case Some(x) => [x]
  }

  /** The same epochs, each as often, in some order. */
  ghost predicate EachOnce(owed: seq<EpochBatch>, failed: seq<EpochBatch>) {
    multiset(owed) == multiset(failed)
  }

  lemma Reordered(a: seq<EpochBatch>, b: seq<EpochBatch>, c: seq<EpochBatch>)
    ensures EachOnce(a + b + c, c + a + b) && EachOnce(a + b + c, a + c + b)
  {
  }

  lemma Padded(a: seq<Item>, b: seq<Item>)
    ensures a + b == a + b + []
  {
  }

  lemma SplitBatch(before: seq<Item>, batch: seq<Staged>, rest: seq<Item>)
    requires batch != []
    ensures before + ItemsOf([batch[0]]) + ItemsOf(batch[1..]) + rest == before + ItemsOf(batch) + rest
  {
    hide ItemsOf;
    FirstOfBatch(batch);
    assert before + ItemsOf([batch[0]]) + ItemsOf(batch[1..]) == before + (ItemsOf([batch[0]]) + ItemsOf(batch[1..]));
  }

  lemma FirstOfBatch(batch: seq<Staged>)
    requires batch != []
    ensures ItemsOf(batch) == ItemsOf([batch[0]]) + ItemsOf(batch[1..])
  {
  }

  lemma SingleItem(staged: Staged)
    ensures CommandItems(Single(staged)) == ItemsOf([staged])
  {
  }

  /** What a worker is given: how epochs derive and are encoded, its limits, everything that is ever sent, when a
      poll happens to see it, which materializations succeed, and what the journal held when it was opened. */
  datatype Setup = Setup(derive: P.Derivation, codec: Codec<P.Intent>, window: nat, maxBatch: nat, sent: seq<Command>,
                         visible: nat -> bool, succeeds: nat -> bool, recovered: seq<seq<P.Intent>>)

  /** Why a worker stopped, by the number of the file call: a submission was refused, a write failed, or an epoch
      could not be applied, in which case the write of its successor may have failed as well. */
  datatype Cause = Refused(call: nat) | Failed(call: nat) | NotApplied(successor: Option<nat>)

  /** The worker's variables, and a record of what has happened: what is durable, who was told, what has taken
      effect, what came out of it, whose outcome was reported as failed, and, among these, whose admission was. */
  datatype State = State(received: nat, polls: nat, pending: seq<Command>, backlog: seq<EpochBatch>, active: Option<EpochBatch>,
                         inflight: Option<EpochBatch>, record: seq<byte>, barrier: Option<nat>, disconnected: bool, stopped: bool,
                         fileLen: nat, nextEpoch: nat, applied: nat, current: World,
                         journal: seq<seq<P.Intent>>, receipts: seq<EpochBatch>, done: seq<Item>,
                         outcomes: seq<seq<P.IntentOutcome>>, failed: seq<EpochBatch>, refused: seq<EpochBatch>,
                         unresolved: seq<EpochBatch>, cause: Option<Cause>)
  {
    function Durable(): seq<EpochBatch> { Optional(active) + backlog }

    function Owed(): seq<EpochBatch> { Durable() + Optional(inflight) }

    function BarrierItems(): seq<Item> {
      match barrier case None => [] case Some(id) => [BarrierItem(id)]
    }
  }

  // ---- What every step keeps ----

  ghost predicate Base(w: Setup, s: State) {
    && w.window > 0 && w.maxBatch > 0 && P.Grounded(w.derive)
    && s.received <= |w.sent| && |s.pending| <= 1 && (forall c :: c in s.pending ==> !c.Single?)
    && (s.disconnected ==> s.received == |w.sent| && s.pending == [])
  }

  /** First in, first out. */
  ghost predicate InOrder(w: Setup, s: State) {
    s.received <= |w.sent| && Accounts(w.sent[..s.received], s.done, s.Owed(), s.BarrierItems(), s.pending)
  }

  ghost predicate Numbered(w: Setup, s: State) {
    NumberedFrom(w.recovered, s.journal, s.receipts)
  }

  ghost predicate Replayed(w: Setup, s: State) {
    ReplayedTo(w.derive, |w.recovered|, s.journal, s.applied, s.outcomes, s.current)
  }

  /** The durable epochs that are not applied are the backlog, which the window bounds. */
  ghost predicate Windowed(w: Setup, s: State) {
    && |s.backlog| <= w.window && (s.active.Some? ==> |s.backlog| < w.window)
    && |w.recovered| <= s.applied <= |s.journal| == |w.recovered| + |s.receipts|
    && s.Durable() == s.receipts[s.applied - |w.recovered|..]
  }

  ghost predicate Filed(w: Setup, s: State, bytes: seq<byte>) {
    && bytes == JournalBytes(w.codec, s.journal) && s.fileLen == |bytes|
    && s.nextEpoch == |s.journal| + 1 + |Optional(s.inflight)|
    && (s.inflight.Some? ==> s.inflight.value.id == |s.journal| + 1 && s.barrier.None? && s.record == RecordOf(w, s.inflight.value))
  }

  function RecordOf(w: Setup, batch: EpochBatch): seq<byte> {
    Record(EPOCH_MAGIC, EpochPayload(w.codec, batch.id, IntentsOf(batch.staged)))
  }

  ghost predicate Running(w: Setup, s: State, bytes: seq<byte>) {
    && !s.stopped && s.failed == s.refused == [] && Base(w, s) && InOrder(w, s) && Numbered(w, s) && Replayed(w, s) && Windowed(w, s)
    && Filed(w, s, bytes)
  }

  /** The write of call `k` failed, and what it left behind the journal is cut off unless that did not happen. */
  ghost predicate CutOff(journal: seq<byte>, bytes: seq<byte>, schedule: nat -> Outcome, k: nat) {
    !schedule(k).ok && bytes == if Truncates(schedule(k + 1)) then journal else journal + schedule(k).debris
  }

  /** What went wrong, and what it left in the file: the journal, and behind it nothing or the debris of one write. */
  ghost predicate Explained(w: Setup, s: State, bytes: seq<byte>, schedule: nat -> Outcome) {
    var journal := JournalBytes(w.codec, s.journal);
    match s.cause
    case None => false
    case Some(Refused(k)) => !Accepts(schedule(k)) && bytes == journal + schedule(k).debris
    case Some(Failed(k)) => CutOff(journal, bytes, schedule, k)
    case Some(NotApplied(None)) => !w.succeeds(s.applied) && bytes == journal
    case Some(NotApplied(Some(k))) => !w.succeeds(s.applied) && CutOff(journal, bytes, schedule, k)
  }

  /** The failed call, if there was one, is among these. */
  ghost predicate Within(cause: Option<Cause>, from: nat, to: nat) {
    match cause
    case None | Some(NotApplied(None)) => true
    case Some(Refused(k)) => from <= k < to
    case Some(Failed(k)) => from <= k < to
    case Some(NotApplied(Some(k))) => from <= k < to
  }

  /** These calls all succeed. */
  ghost predicate Clean(schedule: nat -> Outcome, from: nat, to: nat) {
    from <= to && forall k :: from <= k < to ==> schedule(k).ok
  }

  /** Neither a call nor a materialization has failed. */
  ghost predicate Unharmed(w: Setup, applied: nat, schedule: nat -> Outcome, from: nat, to: nat) {
    Clean(schedule, from, to) && forall n :: |w.recovered| <= n < applied ==> w.succeeds(n)
  }

  lemma StillUnharmed(w: Setup, applied: nat, more: nat, schedule: nat -> Outcome, from: nat, middle: nat, to: nat)
    requires Unharmed(w, applied, schedule, from, middle) && Clean(schedule, middle, to)
    requires more == applied || (more == applied + 1 && w.succeeds(applied))
    ensures Unharmed(w, more, schedule, from, to)
  {
  }

  lemma StoppedWithin(w: Setup, applied: nat, schedule: nat -> Outcome, from: nat, middle: nat, cause: Option<Cause>,
                      to: nat)
    requires Unharmed(w, applied, schedule, from, middle) && Within(cause, middle, to)
    ensures Within(cause, from, to)
  {
  }

  lemma StartsUnharmed(w: Setup, schedule: nat -> Outcome, from: nat)
    ensures Unharmed(w, |w.recovered|, schedule, from, from)
  {
  }

  /** Nobody who was told that an epoch is durable was told that its admission failed, and nobody is left out: the
      epochs that fail are the durable ones that are not applied and the one whose write failed, if there is one. */
  ghost predicate Told(w: Setup, s: State) {
    && |w.recovered| <= s.applied <= |w.recovered| + |s.receipts|
    && s.unresolved == s.receipts[s.applied - |w.recovered|..] + s.refused
    && if s.cause == Some(NotApplied(None)) then s.refused == []
       else |s.refused| == 1 && s.refused[0].id == |s.journal| + 1
  }

  /** Once an epoch has been acknowledged, all of the journal is synced. */
  ghost predicate Synced(w: Setup, s: State, durable: seq<byte>) {
    s.receipts != [] ==> durable == JournalBytes(w.codec, s.journal)
  }

  /** After a failure: effects are still a prefix of what was sent, every owed epoch was reported as failed
      once, durability is at most one epoch further ahead than the window, and the journal is still in the file. */
  ghost predicate Halted(w: Setup, s: State, bytes: seq<byte>, schedule: nat -> Outcome) {
    && s.stopped && Base(w, s) && Numbered(w, s) && Replayed(w, s) && EachOnce(s.unresolved, s.failed)
    && Accounts(w.sent[..s.received], s.done, s.unresolved, s.BarrierItems(), s.pending)
    && |s.journal| - s.applied <= w.window + 1
    && Explained(w, s, bytes, schedule) && Told(w, s)
  }

  /** A worker starts on a recovered journal and the world that replaying it gave. */
  function Started(w: Setup, fileLen: nat, world: World): State {
    State(0, 0, [], [], None, None, [], None, false, false, fileLen, |w.recovered| + 1, |w.recovered|, world,
          w.recovered, [], [], [], [], [], [], None)
  }

  lemma StartedRuns(w: Setup, bytes: seq<byte>, world: World)
    requires w.window > 0 && w.maxBatch > 0 && P.Grounded(w.derive)
    requires bytes == JournalBytes(w.codec, w.recovered) && world == ReplayWorld(w.derive, w.recovered)
    ensures Running(w, Started(w, |bytes|, world), bytes)
  {
    hide JournalBytes, ReplayWorld, P.Grounded, Accounts;
    assert w.recovered[..|w.recovered|] == w.recovered;
    NothingToAccount();
  }

  // ---- Receiving ----

  datatype Polled = Got(command: Command) | Empty | Disconnected

  method Poll(w: Setup, s: State) returns (polled: Polled, t: State)
    requires s.received <= |w.sent|
    ensures t == s.(received := t.received, polls := s.polls + 1)
    ensures match polled
      case Got(c) => s.received < |w.sent| && c == w.sent[s.received] && t.received == s.received + 1
      case Empty => t.received == s.received && !w.visible(s.polls)
      case Disconnected => t.received == s.received == |w.sent|
  {
    t := s.(polls := s.polls + 1);
    if !w.visible(s.polls) {
      polled := Empty;
    } else if s.received == |w.sent| {
      polled := Disconnected;
    } else {
      polled := Got(w.sent[s.received]);
      t := t.(received := s.received + 1);
    }
  }

  /** The last poll between the two states saw nothing. */
  ghost predicate PolledEmpty(w: Setup, s: State, t: State) {
    t.polls > s.polls && !w.visible(t.polls - 1)
  }

  /** The next command: the one put aside, or one from the channel, waiting for it only when asked to. */
  method Take(w: Setup, s: State, wait: bool, ghost before: seq<Item>) returns (command: Option<Command>, t: State)
    requires s.received <= |w.sent| && |s.pending| <= 1 && Items(w.sent[..s.received]) == before + Items(s.pending)
    ensures t == s.(received := t.received, polls := t.polls, pending := [], disconnected := t.disconnected)
    ensures t.received <= |w.sent|
    ensures command.Some? ==> Items(w.sent[..t.received]) == before + CommandItems(command.value)
    ensures command.Some? ==>
      |w.sent| - t.received < |w.sent| - s.received + |s.pending| && t.disconnected == s.disconnected
    ensures command.None? ==> Items(w.sent[..t.received]) == before && t.received == s.received && s.pending == []
    ensures t.polls >= s.polls && (command.None? ==> t.disconnected || (!wait && PolledEmpty(w, s, t)))
    ensures t.disconnected && !s.disconnected ==> t.received == |w.sent|
  {
    hide Items, CommandItems;
    if s.pending != [] {
      command := Some(s.pending[0]);
      ItemsOfFew(s.pending[0]);
      assert s.pending == [s.pending[0]];
      t := s.(pending := []);
      return;
    }
    var next;
    if wait {
      // Blocks until something is sent or every sender is gone.
      next := if s.received < |w.sent| then Got(w.sent[s.received]) else Disconnected;
      t := if s.received < |w.sent| then s.(received := s.received + 1) else s;
    } else {
      next, t := Poll(w, s);
    }
    ItemsOfFew(Barrier(0));
    match next {
      case Got(c) =>
        assert w.sent[..t.received] == w.sent[..s.received] + [c];
        ItemsMore(w.sent[..s.received], c);
        command := Some(c);
      case Empty => command := None;
      case Disconnected =>
        t := t.(disconnected := true);
        command := None;
    }
  }

  /** Fill a batch with the intents behind its first one; anything else is put aside and ends the batch, and so
      does a poll that sees nothing more. */
  method ClaimBatch(w: Setup, s: State, first: Staged) returns (batch: seq<Staged>, t: State)
    requires s.received <= |w.sent| && s.pending == []
    ensures t == s.(received := t.received, polls := t.polls, pending := t.pending)
    ensures s.received + |t.pending| <= t.received <= |w.sent|
    ensures |t.pending| <= 1 && forall c :: c in t.pending ==> !c.Single?
    ensures t.polls >= s.polls
    ensures |batch| < w.maxBatch ==> t.pending != [] || t.received == |w.sent| || PolledEmpty(w, s, t)
    ensures batch != [] && batch[0] == first && (w.maxBatch > 0 ==> |batch| <= w.maxBatch)
    ensures Items(w.sent[..t.received]) == Items(w.sent[..s.received]) + ItemsOf(batch[1..]) + Items(t.pending)
  {
    hide Items, CommandItems;
    batch, t := [first], s;
    ItemsOfFew(Barrier(0));
    assert ItemsOf(batch[1..]) == [];
    while |batch| < w.maxBatch
      invariant t == s.(received := t.received, polls := t.polls)
      invariant s.received <= t.received <= |w.sent| && t.polls >= s.polls
      invariant batch != [] && batch[0] == first && (w.maxBatch > 0 ==> |batch| <= w.maxBatch)
      invariant Items(w.sent[..t.received]) == Items(w.sent[..s.received]) + ItemsOf(batch[1..])
      decreases w.maxBatch - |batch|
    {
      ghost var upTo := t.received;
      var polled;
      polled, t := Poll(w, t);
      if !polled.Got? {
        return;
      }
      assert w.sent[..t.received] == w.sent[..upTo] + [polled.command];
      ItemsMore(w.sent[..upTo], polled.command);
      if !polled.command.Single? {
        t := t.(pending := [polled.command]);
        ItemsOfFew(polled.command);
        return;
      }
      SingleItem(polled.command.staged);
      assert (batch + [polled.command.staged])[1..] == batch[1..] + [polled.command.staged];
      assert ItemsOf(batch[1..] + [polled.command.staged]) == ItemsOf(batch[1..]) + ItemsOf([polled.command.staged]);
      batch := batch + [polled.command.staged];
    }
  }

  /** Turn a command into an epoch's intents, or into the barrier to stop at. */
  method Stage(w: Setup, s: State, command: Command, ghost before: seq<Item>)
    returns (staged: Option<seq<Staged>>, t: State)
    requires s.received <= |w.sent| && s.pending == [] && s.barrier.None?
    requires Items(w.sent[..s.received]) == before + CommandItems(command)
    ensures t == s.(received := t.received, polls := t.polls, pending := t.pending, barrier := t.barrier)
    ensures s.received + |t.pending| <= t.received <= |w.sent|
    ensures |t.pending| <= 1 && forall c :: c in t.pending ==> !c.Single?
    ensures t.polls >= s.polls
    ensures staged.Some? ==>
      t.barrier.None? && Items(w.sent[..t.received]) == before + ItemsOf(staged.value) + Items(t.pending)
    ensures staged.None? ==> t.barrier.Some? && t.pending == [] && t.received == s.received
    ensures staged.None? ==> Items(w.sent[..t.received]) == before + t.BarrierItems() + Items(t.pending)
  {
    hide Items, ItemsOf;
    ItemsOfFew(Barrier(0));
    Padded(before, CommandItems(command));
    t := s;
    match command {
      case Barrier(id) =>
        t := s.(barrier := Some(id));
        staged := None;
      case Single(first) =>
        var batch;
        batch, t := ClaimBatch(w, s, first);
        SplitBatch(before, batch, Items(t.pending));
        staged := Some(batch);
      case Whole(batch) =>
        staged := Some(batch);
    }
  }

  // ---- Durability ----

  /** Report every owed epoch as failed and stop. */
  method Halt(w: Setup, s: State, extra: seq<EpochBatch>, refused: seq<EpochBatch>, cause: Cause, ghost bytes: seq<byte>,
              ghost schedule: nat -> Outcome)
    returns (t: State)
    requires Base(w, s) && Numbered(w, s) && Replayed(w, s) && |s.journal| - s.applied <= w.window + 1
    requires Accounts(w.sent[..s.received], s.done, s.Durable() + extra, s.BarrierItems(), s.pending)
    requires Explained(w, s.(cause := Some(cause)), bytes, schedule)
    requires Told(w, s.(unresolved := s.Durable() + extra, refused := refused, cause := Some(cause)))
    ensures Halted(w, t, bytes, schedule) && t.received == s.received && t.pending == s.pending
    ensures t.cause == Some(cause) && t.journal == s.journal && t.receipts == s.receipts
  {
    hide Accounts, P.Grounded, NumberedFrom, ReplayedTo, EachOnce, Optional, JournalBytes, CutOff;
    var failed := FailAll(extra + Optional(s.active), s.backlog);
    Reordered(Optional(s.active), s.backlog, extra);
    t := s.(stopped := true, failed := failed, unresolved := s.Durable() + extra, inflight := None, active := None, backlog := [],
            refused := refused, cause := Some(cause));
  }

  method FailAll(already: seq<EpochBatch>, backlog: seq<EpochBatch>) returns (failed: seq<EpochBatch>)
    ensures failed == already + backlog
  {
    var rest := backlog;
    failed := already;
    while rest != []
      invariant failed + rest == already + backlog
      decreases |rest|
    {
      failed := failed + [rest[0]];
      rest := rest[1..];
    }
  }

  /** The next epoch is numbered and encoded, and its record is about to be written. */
  function Prepared(w: Setup, s: State, batch: EpochBatch): State {
    s.(nextEpoch := s.nextEpoch + 1, record := RecordOf(w, batch))
  }

  ghost predicate Preparable(w: Setup, s: State, batch: EpochBatch, bytes: seq<byte>) {
    && !s.stopped && s.failed == s.refused == [] && Base(w, s) && Numbered(w, s) && Replayed(w, s) && Windowed(w, s)
    && Filed(w, s, bytes) && s.inflight.None? && s.barrier.None? && batch.id == s.nextEpoch
    && Accounts(w.sent[..s.received], s.done, s.Owed(), ItemsOf(batch.staged), s.pending)
  }

  lemma PreparedRuns(w: Setup, s: State, batch: EpochBatch, bytes: seq<byte>, call: nat)
    requires Preparable(w, s, batch, bytes)
    ensures var t := Prepared(w, s, batch);
      && Running(w, t.(inflight := Some(batch)), bytes)
      && Numbered(w, t) && Replayed(w, t) && |t.journal| - t.applied <= w.window + 1
      && Accounts(w.sent[..t.received], t.done, t.Durable() + [batch], t.BarrierItems(), t.pending)
      && Told(w, t.(unresolved := t.Durable() + [batch], refused := [batch], cause := Some(Refused(call))))
  {
    hide Accounts, ItemsOf, NumberedFrom, ReplayedTo, P.Grounded, JournalBytes, RecordOf;
    assert s.Owed() == s.Durable();
    SubmitAccounts(w.sent[..s.received], s.done, s.Durable(), batch, s.pending);
  }

  method SubmitEpoch(w: Setup, s: State, staged: seq<Staged>, io: File) returns (ok: bool, t: State)
    requires !s.stopped && s.failed == s.refused == [] && Base(w, s) && Numbered(w, s) && Replayed(w, s) && Windowed(w, s)
    requires Filed(w, s, io.bytes) && Synced(w, s, io.durable)
    requires s.inflight.None? && s.barrier.None?
    requires Accounts(w.sent[..s.received], s.done, s.Owed(), ItemsOf(staged), s.pending)
    modifies io
    ensures ok ==> Running(w, t, io.bytes) && t.inflight.Some?
    ensures ok ==>
      t == s.(nextEpoch := t.nextEpoch, record := t.record, inflight := t.inflight) && io.calls == old(io.calls)
    ensures !ok ==> t.stopped && Halted(w, t, io.bytes, io.schedule) && Within(t.cause, old(io.calls), io.calls)
    ensures Synced(w, t, io.durable)
  {
    hide Accounts, ItemsOf, Numbered, Replayed, Windowed, JournalBytes, Record, EpochPayload, IntentsOf, Told, Halted, Running;
    var batch := EpochBatch(s.nextEpoch, staged);
    var record := WriteEpoch(w.codec, batch.id, IntentsOf(staged));
    t := s.(nextEpoch := s.nextEpoch + 1, record := record);
    var call := io.calls;
    PreparedRuns(w, s, batch, io.bytes, call);
    ok := io.Submit(s.fileLen, record);
    if ok {
      t := t.(inflight := Some(batch));
    } else {
      t := Halt(w, t, [batch], [batch], Refused(call), io.bytes, io.schedule);
      assert t.stopped by { HaltedStops(w, t, io.bytes, io.schedule); }
    }
  }

  lemma HaltedStops(w: Setup, s: State, bytes: seq<byte>, schedule: nat -> Outcome)
    requires Halted(w, s, bytes, schedule)
    ensures s.stopped
  {
  }

  /** A completed write is durable: the journal is one epoch longer, and its submitters are told. */
  function Admitted(w: Setup, s: State, batch: EpochBatch): State {
    s.(fileLen := s.fileLen + |s.record|, inflight := None, journal := s.journal + [IntentsOf(batch.staged)],
       receipts := s.receipts + [batch])
  }

  lemma AdmittedIsKept(w: Setup, s: State, bytes: seq<byte>)
    requires Running(w, s, bytes) && s.inflight.Some?
    ensures var t := Admitted(w, s, s.inflight.value);
      && Numbered(w, t) && Replayed(w, t)
      && bytes + s.record == JournalBytes(w.codec, t.journal) && t.fileLen == |bytes + s.record|
      && t.nextEpoch == |t.journal| + 1
      && Accounts(w.sent[..s.received], s.done, s.Durable() + [s.inflight.value], s.BarrierItems(), s.pending)
  {
    hide Accounts, NumberedFrom, ReplayedTo, P.Grounded, JournalBytes, Record, EpochPayload, IntentsOf;
    var batch := s.inflight.value;
    AdmitKeepsNumbers(w.recovered, s.journal, s.receipts, batch);
    AdmitKeepsReplay(w.derive, |w.recovered|, s.journal, s.applied, s.outcomes, s.current, IntentsOf(batch.staged));
    JournalGrows(w.codec, s.journal, IntentsOf(batch.staged));
  }

  lemma BackloggedRuns(w: Setup, s: State, bytes: seq<byte>)
    requires Running(w, s, bytes) && s.inflight.Some? && s.active.None? && |s.backlog| < w.window
    ensures Running(w, Admitted(w, s, s.inflight.value).(backlog := s.backlog + [s.inflight.value]), bytes + s.record)
  {
    hide Accounts, NumberedFrom, ReplayedTo, P.Grounded, JournalBytes, Record, EpochPayload, IntentsOf;
    AdmittedIsKept(w, s, bytes);
    var batch := s.inflight.value;
    var t := Admitted(w, s, batch).(backlog := s.backlog + [batch]);
    assert t.Owed() == s.Durable() + [batch] && t.Durable() == s.Durable() + [batch];
  }

  /** Wait for the write under way. A failed one is cut off again, as far as the file allows. */
  method Await(s: State, io: File) returns (ok: bool)
    requires s.fileLen == |io.bytes|
    modifies io
    ensures ok == io.schedule(old(io.calls)).ok && old(io.calls) < io.calls
    ensures ok ==> io.bytes == io.durable == old(io.bytes) + s.record && io.calls == old(io.calls) + 1
    ensures !ok ==> CutOff(old(io.bytes), io.bytes, io.schedule, old(io.calls))
    ensures !ok ==> io.durable == old(io.durable) || io.durable == old(io.bytes)
  {
    ok := io.Complete(s.fileLen, s.record);
    if !ok {
      var cut := io.SetLen(s.fileLen);
      if cut {
        var _ := io.SyncData();
      }
    }
  }

  method CompleteEpoch(w: Setup, s: State, io: File) returns (ok: bool, t: State)
    requires Running(w, s, io.bytes) && s.inflight.Some? && s.active.None? && |s.backlog| < w.window
    requires Synced(w, s, io.durable)
    modifies io
    ensures ok ==>
      Running(w, t, io.bytes) && t == Admitted(w, s, s.inflight.value).(backlog := s.backlog + [s.inflight.value])
    ensures ok ==> Clean(io.schedule, old(io.calls), io.calls)
    ensures !ok ==> t.stopped && Halted(w, t, io.bytes, io.schedule) && Within(t.cause, old(io.calls), io.calls)
    ensures Synced(w, t, io.durable)
  {
    hide Accounts, NumberedFrom, ReplayedTo, P.Grounded, JournalBytes, Record, EpochPayload, IntentsOf;
    AdmittedIsKept(w, s, io.bytes);
    BackloggedRuns(w, s, io.bytes);
    var batch := s.inflight.value;
    var call := io.calls;
    ok := Await(s, io);
    if ok {
      t := Admitted(w, s, batch);
      t := t.(backlog := s.backlog + [batch]);
    } else {
      t := Halt(w, s, [batch], [batch], Failed(call), io.bytes, io.schedule);
    }
  }

  // ---- Materialization ----

  /** Derive the oldest durable epoch on the published world, publish the result, send its outcomes. */
  method Materialize(w: Setup, s: State, ghost bytes: seq<byte>) returns (ok: bool, t: State)
    requires Running(w, s, bytes) && s.active.Some?
    ensures ok <==> w.succeeds(s.applied)
    ensures ok ==> Running(w, t, bytes)
    ensures ok ==>
      t == s.(active := None, applied := s.applied + 1, current := t.current, outcomes := t.outcomes, done := t.done)
    ensures !ok ==> t == s
  {
    hide Accounts, NumberedFrom, ReplayedTo, P.Grounded, JournalBytes, Record, EpochPayload, IntentsOf;
    var batch := s.active.value;
    if !w.succeeds(s.applied) {
      return false, s;
    }
    var plan := w.derive(s.current, IntentsOf(batch.staged));
    AppliedRuns(w, s, bytes, plan);
    ok := true;
    t := AppliedState(s, plan);
  }

  function AppliedState(s: State, plan: P.Plan): State
    requires s.active.Some?
  {
    s.(active := None, applied := s.applied + 1, current := if plan.frames != [] then plan.tail else s.current,
       outcomes := s.outcomes + [plan.outcomes], done := s.done + ItemsOf(s.active.value.staged))
  }

  lemma AppliedRuns(w: Setup, s: State, bytes: seq<byte>, plan: P.Plan)
    requires Running(w, s, bytes) && s.active.Some?
    requires plan == w.derive(s.current, IntentsOf(s.active.value.staged))
    ensures Running(w, AppliedState(s, plan), bytes)
  {
    hide Base, InOrder, Replayed, Windowed, Filed, IntentsOf;
    var t := AppliedState(s, plan);
    assert Base(w, t) && Filed(w, t, bytes) by {
      AppliedElsewhere(w, s, bytes, plan);
    }
    AppliedInOrder(w, s, plan);
    AppliedReplay(w, s, bytes, plan);
    AppliedWindow(w, s, plan);
  }

  lemma AppliedElsewhere(w: Setup, s: State, bytes: seq<byte>, plan: P.Plan)
    requires s.active.Some? && Base(w, s) && Filed(w, s, bytes)
    ensures Base(w, AppliedState(s, plan)) && Filed(w, AppliedState(s, plan), bytes)
  {
    hide P.Grounded, JournalBytes, RecordOf;
  }

  lemma AppliedInOrder(w: Setup, s: State, plan: P.Plan)
    requires s.active.Some? && InOrder(w, s)
    ensures InOrder(w, AppliedState(s, plan))
  {
    hide Accounts, ItemsOf;
    OwedAfter(s);
    ApplyAccounts(w.sent[..s.received], s.done, s.active.value, s.backlog + Optional(s.inflight), s.BarrierItems(), s.pending);
  }

  lemma AppliedReplay(w: Setup, s: State, bytes: seq<byte>, plan: P.Plan)
    requires Running(w, s, bytes) && s.active.Some? && plan == w.derive(s.current, IntentsOf(s.active.value.staged))
    ensures Replayed(w, AppliedState(s, plan))
  {
    hide P.Grounded, ReplayedTo, IntentsOf, Filed, InOrder;
    AppliedEpoch(w, s, bytes);
    EmptyPlanChangesNothing(w.derive, s.current, IntentsOf(s.active.value.staged));
    ApplyKeepsReplay(w.derive, |w.recovered|, s.journal, s.applied, s.outcomes, s.current);
  }

  lemma AppliedWindow(w: Setup, s: State, plan: P.Plan)
    requires s.active.Some? && Windowed(w, s)
    ensures Windowed(w, AppliedState(s, plan))
  {
    OwedAfter(s);
    assert |s.Durable()| > 0;
  }

  lemma EmptyPlanChangesNothing(derive: P.Derivation, base: World, intents: seq<P.Intent>)
    requires P.Grounded(derive)
    ensures derive(base, intents).frames == [] ==> derive(base, intents).tail == base
  {
  }

  lemma OwedAfter(s: State)
    requires s.active.Some?
    ensures s.Owed() == [s.active.value] + (s.backlog + Optional(s.inflight))
    ensures s.(active := None).Owed() == s.backlog + Optional(s.inflight)
    ensures s.(active := None).Durable() == s.Durable()[1..]
  {
  }

  lemma AppliedEpoch(w: Setup, s: State, bytes: seq<byte>)
    requires Running(w, s, bytes) && s.active.Some?
    ensures s.applied < |s.journal| && s.journal[s.applied] == IntentsOf(s.active.value.staged)
  {
    hide Accounts, ReplayedTo, JournalBytes, IntentsOf;
    assert s.active.value == s.Durable()[0] == s.receipts[s.applied - |w.recovered|];
  }

  /** Materialization failed: everything owed fails, including a successor whose write still completes. */
  method Abandon(w: Setup, s: State, io: File) returns (t: State)
    requires Running(w, s, io.bytes) && s.active.Some? && !w.succeeds(s.applied) && Synced(w, s, io.durable)
    modifies io
    ensures t.stopped && Halted(w, t, io.bytes, io.schedule) && Within(t.cause, old(io.calls), io.calls)
    ensures Synced(w, t, io.durable)
  {
    hide Accounts, NumberedFrom, ReplayedTo, P.Grounded, JournalBytes, Record, EpochPayload, IntentsOf, EachOnce;
    if s.inflight.None? {
      t := Halt(w, s, [], [], NotApplied(None), io.bytes, io.schedule);
      return;
    }
    AdmittedIsKept(w, s, io.bytes);
    var batch := s.inflight.value;
    var call := io.calls;
    var ok := Await(s, io);
    t := if ok then Admitted(w, s, batch) else s;
    t := Halt(w, t, [batch], if ok then [] else [batch], NotApplied(if ok then None else Some(call)), io.bytes, io.schedule);
  }

  // ---- The loop ----

  /** How much is left to do: a command becomes an epoch or a barrier, and those complete. */
  function Work(w: Setup, s: State): int {
    2 * (|w.sent| - s.received + |s.pending|) + |s.backlog| + |Optional(s.barrier)|
  }

  ghost predicate Between(w: Setup, s: State, bytes: seq<byte>) {
    Running(w, s, bytes) && s.active.None? && s.inflight.None?
  }

  /** Claim a command and set its epoch on its way, or set the barrier; `submitted` when an epoch was submitted. */
  method Claim(w: Setup, s: State, wait: bool, io: File) returns (submitted: bool, t: State)
    requires Running(w, s, io.bytes) && s.inflight.None? && s.barrier.None? && !s.disconnected
    requires Synced(w, s, io.durable)
    modifies io
    ensures t.stopped ==> Halted(w, t, io.bytes, io.schedule) && Within(t.cause, old(io.calls), io.calls)
    ensures Synced(w, t, io.durable)
    ensures !t.stopped ==>
      Running(w, t, io.bytes) && t.active == s.active && t.backlog == s.backlog && t.applied == s.applied
    ensures !t.stopped ==> io.calls == old(io.calls)
    ensures !t.stopped ==> (submitted <==> t.inflight.Some?) && (submitted ==> !t.disconnected)
    ensures !t.stopped ==> Work(w, t) <= Work(w, s) && (submitted ==> Work(w, t) <= Work(w, s) - 2)
    ensures !t.stopped ==> t.polls >= s.polls
    ensures !t.stopped && !submitted ==> t.barrier.Some? || t.disconnected || (!wait && PolledEmpty(w, s, t))
  {
    hide Accounts, NumberedFrom, ReplayedTo, P.Grounded, JournalBytes, RecordOf;
    hide Items, BatchItems, CommandItems, ItemsOf;
    ghost var before := s.done + BatchItems(s.Owed());
    BeforeClaim(w, s);
    var command;
    command, t := Take(w, s, wait, before);
    submitted := false;
    if command.None? {
      NothingClaimed(w, s, t, before);
      return;
    }
    var staged;
    staged, t := Stage(w, t, command.value, before);
    AccountsAre(w.sent[..t.received], t.done, t.Owed(), if staged.Some? then ItemsOf(staged.value) else t.BarrierItems(), t.pending);
    if staged.None? {
      return;
    }
    submitted, t := SubmitEpoch(w, t, staged.value, io);
  }

  lemma BeforeClaim(w: Setup, s: State)
    requires InOrder(w, s) && s.barrier.None?
    ensures Items(w.sent[..s.received]) == (s.done + BatchItems(s.Owed())) + Items(s.pending)
  {
    AccountsAre(w.sent[..s.received], s.done, s.Owed(), [], s.pending);
  }

  lemma NothingClaimed(w: Setup, s: State, t: State, before: seq<Item>)
    requires s.received <= |w.sent| && before == s.done + BatchItems(s.Owed()) && s.barrier.None?
    requires Items(w.sent[..s.received]) == before
    ensures Accounts(w.sent[..s.received], s.done, s.Owed(), [], [])
  {
    hide BatchItems;
    ItemsOfFew(Barrier(0));
    assert before == before + [] + [];
  }

  /** Make commands durable until the window is full, nothing more is waiting, or a barrier is reached. */
  method Fill(w: Setup, s: State, io: File) returns (t: State)
    requires Between(w, s, io.bytes) && Synced(w, s, io.durable)
    modifies io
    ensures t.stopped ==> Halted(w, t, io.bytes, io.schedule) && Within(t.cause, old(io.calls), io.calls)
    ensures Synced(w, t, io.durable)
    ensures !t.stopped ==> Between(w, t, io.bytes) && Work(w, t) <= Work(w, s)
    ensures !t.stopped ==> t.applied == s.applied && Clean(io.schedule, old(io.calls), io.calls)
    ensures !t.stopped ==> t.backlog != [] || t.barrier.Some? || t.disconnected
    ensures !t.stopped ==> |t.backlog| == w.window || t.barrier.Some? || t.disconnected || PolledEmpty(w, s, t)
  {
    hide Base, InOrder, Numbered, Replayed, Windowed, Filed, Halted, Explained;
    t := s;
    while |t.backlog| < w.window && t.barrier.None? && !t.disconnected
      invariant Between(w, t, io.bytes) && Work(w, t) <= Work(w, s)
      invariant t.applied == s.applied && Clean(io.schedule, old(io.calls), io.calls)
      invariant Synced(w, t, io.durable) && t.polls >= s.polls
      decreases Work(w, t), if t.disconnected then 0 else 1, if t.barrier.Some? then 0 else 1
    {
      WorkIsNatural(w, t, io.bytes);
      var submitted;
      submitted, t := Claim(w, t, t.backlog == [], io);
      if t.stopped || !submitted {
        return;
      }
      var ok;
      ok, t := CompleteEpoch(w, t, io);
      if !ok {
        return;
      }
    }
    WindowBounds(w, t, io.bytes);
  }

  lemma WindowBounds(w: Setup, s: State, bytes: seq<byte>)
    requires Running(w, s, bytes)
    ensures w.window > 0 && |s.backlog| <= w.window
  {
  }

  lemma WorkIsNatural(w: Setup, s: State, bytes: seq<byte>)
    requires Running(w, s, bytes)
    ensures Work(w, s) >= 0
  {
  }

  /** Apply the oldest durable epoch while the next one may already be on its way to disk. */
  method Advance(w: Setup, s: State, io: File) returns (t: State)
    requires Between(w, s, io.bytes) && s.backlog != [] && Synced(w, s, io.durable)
    modifies io
    ensures t.stopped ==> Halted(w, t, io.bytes, io.schedule) && Within(t.cause, old(io.calls), io.calls)
    ensures Synced(w, t, io.durable)
    ensures !t.stopped ==> Between(w, t, io.bytes) && Work(w, t) < Work(w, s)
    ensures !t.stopped ==>
      t.applied == s.applied + 1 && w.succeeds(s.applied) && Clean(io.schedule, old(io.calls), io.calls)
    ensures !t.stopped ==> |t.backlog| == |s.backlog| || t.barrier.Some? || t.disconnected || PolledEmpty(w, s, t)
  {
    hide Base, InOrder, Numbered, Replayed, Windowed, Filed, Halted, Explained, JournalBytes, RecordOf, Within;
    t := s.(active := Some(s.backlog[0]), backlog := s.backlog[1..]);
    WindowBounds(w, s, io.bytes);
    Activated(w, s, io.bytes);
    if t.barrier.None? && !t.disconnected && |t.backlog| < w.window {
      var submitted;
      submitted, t := Claim(w, t, false, io);
      if t.stopped {
        return;
      }
    }
    var ok;
    ok, t := Materialize(w, t, io.bytes);
    if !ok {
      t := Abandon(w, t, io);
      return;
    }
    if t.inflight.Some? {
      ok, t := CompleteEpoch(w, t, io);
    }
  }

  lemma Activated(w: Setup, s: State, bytes: seq<byte>)
    requires Between(w, s, bytes) && s.backlog != []
    ensures var t := s.(active := Some(s.backlog[0]), backlog := s.backlog[1..]);
      Running(w, t, bytes) && Work(w, t) == Work(w, s) - 1
  {
    hide Accounts, NumberedFrom, ReplayedTo, P.Grounded, JournalBytes, RecordOf;
    var t := s.(active := Some(s.backlog[0]), backlog := s.backlog[1..]);
    assert t.Durable() == s.Durable() && t.Owed() == s.Owed();
  }

  /** The worker, until every sender is gone or a failure stops it. A run that is not stopped has done everything
      that was sent, in the order it was sent, without a failed call or a failed materialization; one that is
      stopped had one of these, as its cause says. */
  method Run(w: Setup, fileLen: nat, world: World, io: File) returns (t: State)
    requires w.window > 0 && w.maxBatch > 0 && P.Grounded(w.derive)
    requires io.bytes == JournalBytes(w.codec, w.recovered) && fileLen == |io.bytes|
    requires world == ReplayWorld(w.derive, w.recovered)
    modifies io
    ensures t.stopped ==> Halted(w, t, io.bytes, io.schedule) && Within(t.cause, old(io.calls), io.calls)
    ensures Synced(w, t, io.durable)
    ensures !t.stopped ==> Running(w, t, io.bytes) && t.done == Items(w.sent) && t.applied == |t.journal|
    ensures !t.stopped ==> Unharmed(w, t.applied, io.schedule, old(io.calls), io.calls)
  {
    hide Base, InOrder, Numbered, Replayed, Windowed, Filed, Halted;
    hide Explained, Accounts, Items, Unharmed, Clean, Within;
    ghost var start := io.calls;
    StartsUnharmed(w, io.schedule, start);
    t := Started(w, fileLen, world);
    StartedRuns(w, io.bytes, world);
    while true
      invariant Between(w, t, io.bytes) && Unharmed(w, t.applied, io.schedule, start, io.calls)
      invariant Synced(w, t, io.durable)
      decreases Work(w, t)
    {
      WorkIsNatural(w, t, io.bytes);
      ghost var applied, calls := t.applied, io.calls;
      t := Fill(w, t, io);
      if t.stopped {
        StoppedWithin(w, applied, io.schedule, start, calls, t.cause, io.calls);
        return;
      }
      StillUnharmed(w, applied, t.applied, io.schedule, start, calls, io.calls);
      WorkIsNatural(w, t, io.bytes);
      if t.backlog != [] {
        applied, calls := t.applied, io.calls;
        t := Advance(w, t, io);
        if t.stopped {
          StoppedWithin(w, applied, io.schedule, start, calls, t.cause, io.calls);
          return;
        }
        StillUnharmed(w, applied, t.applied, io.schedule, start, calls, io.calls);
      } else if t.barrier.Some? {
        BarrierReached(w, t, io.bytes);
        t := t.(done := t.done + [BarrierItem(t.barrier.value)], barrier := None);
      } else {
        AllDone(w, t, io.bytes);
        return;
      }
    }
  }

  /** A barrier is answered when every earlier intent has its outcome, and not before. */
  lemma BarrierReached(w: Setup, s: State, bytes: seq<byte>)
    requires Between(w, s, bytes) && s.backlog == [] && s.barrier.Some?
    ensures s.applied == |s.journal|
    ensures Accounts(w.sent[..s.received], s.done, [], [BarrierItem(s.barrier.value)], s.pending)
    ensures var t := s.(done := s.done + [BarrierItem(s.barrier.value)], barrier := None);
      Between(w, t, bytes) && Work(w, t) < Work(w, s)
  {
    hide Accounts, NumberedFrom, ReplayedTo, P.Grounded, JournalBytes, RecordOf;
    assert s.Owed() == [];
    BarrierAccounts(w.sent[..s.received], s.done, s.barrier.value, s.pending);
  }

  lemma AllDone(w: Setup, s: State, bytes: seq<byte>)
    requires Between(w, s, bytes) && s.backlog == [] && s.barrier.None? && s.disconnected
    ensures s.done == Items(w.sent) && s.applied == |s.journal|
  {
    hide NumberedFrom, ReplayedTo, P.Grounded, JournalBytes, RecordOf, Items;
    assert s.Owed() == [];
    assert w.sent[..|w.sent|] == w.sent;
    ItemsOfFew(Barrier(0));
  }

  // ---- What a running or halted worker guarantees ----

  /** Effects are a prefix of what was sent, in order. */
  lemma FirstInFirstOut(w: Setup, s: State, bytes: seq<byte>, schedule: nat -> Outcome)
    requires Running(w, s, bytes) || Halted(w, s, bytes, schedule)
    ensures s.done <= Items(w.sent[..s.received])
  {
    var owed := if s.stopped then s.unresolved else s.Owed();
    DoneIsPrefix(w.sent[..s.received], s.done, owed, s.BarrierItems(), s.pending);
  }

  /** Durability never runs further ahead of materialization than the window. */
  lemma LagIsBounded(w: Setup, s: State, bytes: seq<byte>)
    requires Running(w, s, bytes)
    ensures |s.journal| - s.applied <= w.window
  {
    assert |s.Durable()| == |s.receipts| - (s.applied - |w.recovered|);
  }

  /** Wherever a running worker is interrupted, and whatever prefix of the record under way has reached the disk,
      the journal reads back as every epoch that was acknowledged, in order, and at most the one under way; and
      replaying it passes through the world that was published. */
  lemma CrashKeepsReceipts(w: Setup, s: State, bytes: seq<byte>, next: seq<P.Intent>, cut: nat)
    requires Running(w, s, bytes) && ReadsBack(w.codec) && Recoverable(w.codec, s.journal + [next])
    requires s.inflight.Some? ==> next == IntentsOf(s.inflight.value.staged)
    requires |bytes| <= cut <= |JournalBytes(w.codec, s.journal + [next])|
    ensures var disk := JournalBytes(w.codec, s.journal + [next])[..cut];
      && bytes <= disk && (s.inflight.Some? ==> disk <= bytes + s.record)
      && var read := ReadJournal(w.codec, disk);
         read.Some? && read.value.Scan? && read.value.items in {s.journal, s.journal + [next]}
         && s.applied <= |read.value.items|
         && s.current == ReplayWorld(w.derive, read.value.items[..s.applied])
    ensures forall i :: 0 <= i < |s.receipts| ==> IntentsOf(s.receipts[i].staged) == s.journal[|w.recovered| + i]
  {
    hide Accounts, P.Grounded, JournalBytes, ReadJournal, ReadsBack, Recoverable, Record, EpochPayload;
    CrashRecovery(w.codec, s.journal, next, cut);
    JournalGrows(w.codec, s.journal, next);
    assert (s.journal + [next])[..s.applied] == s.journal[..s.applied];
    if s.inflight.Some? {
      assert bytes + s.record == JournalBytes(w.codec, s.journal + [next]);
    }
  }

  // ---- Opening again ----

  const HEADER_PIECES: seq<seq<byte>> := [JOURNAL_MAGIC, LittleEndian(JOURNAL_VERSION, 4), LittleEndian(0, 4)]

  lemma PiecesAreHeader(codec: Codec<P.Intent>)
    ensures Joined(HEADER_PIECES) == JournalHeader() == JournalBytes(codec, [])
    ensures ReadJournal(codec, JournalHeader()) == Some(Scan([], JOURNAL_HEADER_LEN)) && ReadJournal(codec, []) == None
  {
    hide ScanFrom, LittleEndian;
    JoinedThree(JOURNAL_MAGIC, LittleEndian(JOURNAL_VERSION, 4), LittleEndian(0, 4));
    assert JournalBytes(codec, []) == JournalHeader() + [];
    JournalHeaderIsRead(codec, JournalHeader());
    NothingLeft(EPOCH_MAGIC, AcceptEpoch(codec), JournalHeader(), [], JOURNAL_HEADER_LEN);
  }

  /** What opening a journal at call `k` gives: its epochs, when it reads, every call that reading or creating takes
      succeeds, and the two calls that trim an incomplete tail do so too. */
  ghost function RecoverView(codec: Codec<P.Intent>, schedule: nat -> Outcome, k: nat,
                             bytes: seq<byte>): Option<seq<seq<P.Intent>>> {
    var content := if bytes == [] then JournalHeader() else bytes;
    var (readable, next) := OpenRuns(schedule, k, bytes == [], HEADER_PIECES);
    match ReadJournal(codec, content)
    case None => None
    case Some(scan) =>
      if !readable || scan.Corrupt? then None
      else if scan.offset != |content| && !(schedule(next).ok && schedule(next + 1).ok) then None
      else Some(scan.items)
  }

  /** A journal is recovered exactly when it can be read or created, reads as epochs up to a tail, and, if there is a
      tail, the calls that cut it off and sync the file succeed. */
  lemma RecoversExactly(codec: Codec<P.Intent>, schedule: nat -> Outcome, k: nat, bytes: seq<byte>)
    ensures var content := if bytes == [] then JournalHeader() else bytes;
      var journal, read := ReadJournal(codec, content), ReadCall(schedule, k, bytes == [], HEADER_PIECES);
      && (RecoverView(codec, schedule, k, bytes).Some? <==>
            && Readable(schedule, k, bytes == [], HEADER_PIECES) && journal.Some? && journal.value.Scan?
            && (journal.value.offset == |content| || (schedule(read + 1).ok && schedule(read + 2).ok)))
      && (RecoverView(codec, schedule, k, bytes).Some? ==>
            RecoverView(codec, schedule, k, bytes).value == journal.value.items)
  {
    hide OpenRuns, Readable, ReadCall, ReadJournal;
    OpensByItsCalls(schedule, k, bytes == [], HEADER_PIECES);
  }

  /** Read the journal and cut off an incomplete last record; a new file gets its header first. */
  method Recover(codec: Codec<P.Intent>, io: File) returns (epochs: Option<seq<seq<P.Intent>>>)
    modifies io
    ensures epochs == RecoverView(codec, io.schedule, old(io.calls), old(io.bytes))
    ensures epochs.Some? && old(io.bytes) == [] ==> epochs.value == [] && io.bytes == JournalBytes(codec, [])
    ensures epochs.Some? && old(io.bytes) != [] ==>
      ReadJournal(codec, old(io.bytes)) == Some(Scan(epochs.value, |io.bytes|)) && io.bytes <= old(io.bytes)
    ensures epochs.Some? ==> io.durable == if io.bytes == old(io.bytes) then old(io.durable) else io.bytes
    ensures epochs.None? && old(io.bytes) == [] ==> io.bytes <= JournalHeader()
    ensures epochs.None? && old(io.bytes) != [] ==>
      io.bytes == old(io.bytes) || (ReadsTo(codec, old(io.bytes), |io.bytes|) && io.bytes < old(io.bytes))
  {
    hide ScanFrom, OpenRuns, LittleEndian, Joined, JournalBytes;
    epochs := None;
    PiecesAreHeader(codec);
    var content := io.ReadOrCreate(HEADER_PIECES);
    if content.None? {
      return;
    }
    var bytes := content.value;
    if |bytes| < JOURNAL_HEADER_LEN || bytes[..8] != JOURNAL_MAGIC || FromLittleEndian(bytes[8..12]) != JOURNAL_VERSION {
      return;
    }
    var scan := ScanRecords(EPOCH_MAGIC, AcceptEpoch(codec), bytes, JOURNAL_HEADER_LEN);
    if scan.Corrupt? {
      return;
    }
    var _, _ := ScanCanonicalEnd(codec, bytes);
    if scan.offset != |bytes| {
      var cut := io.SetLen(scan.offset);
      if !cut {
        return;
      }
      var synced := io.SyncData();
      if !synced {
        return;
      }
    }
    epochs := Some(scan.items);
  }

  /** The end of the last whole record of a journal that reads. */
  ghost predicate ReadsTo(codec: Codec<P.Intent>, bytes: seq<byte>, offset: nat) {
    var read := ReadJournal(codec, bytes);
    read.Some? && read.value.Scan? && read.value.offset == offset
  }

  lemma ScanCanonicalEnd(codec: Codec<P.Intent>, bytes: seq<byte>) returns (items: seq<seq<P.Intent>>,
                         payloads: seq<seq<byte>>)
    requires |bytes| >= JOURNAL_HEADER_LEN
    requires ScanFrom(EPOCH_MAGIC, AcceptEpoch(codec), bytes, [], JOURNAL_HEADER_LEN).Scan?
    ensures ScanFrom(EPOCH_MAGIC, AcceptEpoch(codec), bytes, [], JOURNAL_HEADER_LEN).offset <= |bytes|
  {
    items, payloads := ScanCanonical(EPOCH_MAGIC, AcceptEpoch(codec), bytes, [], JOURNAL_HEADER_LEN);
  }

  /** What recovery leaves of an interrupted journal is a journal again, and a new worker can start on it. */
  lemma RestartAfterCrash(w: Setup, s: State, bytes: seq<byte>, next: seq<P.Intent>, cut: nat,
                          epochs: seq<seq<P.Intent>>, offset: nat)
    requires Running(w, s, bytes) && ReadsBack(w.codec) && Recoverable(w.codec, s.journal + [next])
    requires |bytes| <= cut <= |JournalBytes(w.codec, s.journal + [next])|
    requires ReadJournal(w.codec, JournalBytes(w.codec, s.journal + [next])[..cut]) == Some(Scan(epochs, offset))
    ensures offset <= cut
    ensures var again := w.(recovered := epochs);
      var left := JournalBytes(w.codec, s.journal + [next])[..cut][..offset];
      Running(again, Started(again, |left|, ReplayWorld(w.derive, epochs)), left)
  {
    hide InOrder, Numbered, Replayed, Windowed, P.Grounded, JournalBytes, ReadJournal, ReadsBack, Recoverable;
    CrashRecovery(w.codec, s.journal, next, cut);
    var all := JournalBytes(w.codec, s.journal + [next]);
    assert all[..|bytes|] == bytes;
    if cut == |all| {
      assert all[..cut][..offset] == all;
    } else {
      assert all[..cut][..offset] == bytes;
    }
    var again := w.(recovered := epochs);
    StartedRuns(again, all[..cut][..offset], ReplayWorld(w.derive, epochs));
  }

  // ---- Opening again after a halt ----

  /** What a halted worker's journal file holds behind the journal is what one failed write left there, or nothing. */
  function Debris(w: Setup, s: State, bytes: seq<byte>): seq<byte>
    requires |JournalBytes(w.codec, s.journal)| <= |bytes|
  {
    bytes[|JournalBytes(w.codec, s.journal)|..]
  }

  lemma HaltedFile(w: Setup, s: State, bytes: seq<byte>, schedule: nat -> Outcome)
    requires Halted(w, s, bytes, schedule)
    ensures JournalBytes(w.codec, s.journal) <= bytes
    ensures bytes == JournalBytes(w.codec, s.journal) + Debris(w, s, bytes)
    ensures s.cause.Some? && (s.cause.value.NotApplied? && s.cause.value.successor.None? ==> Debris(w, s, bytes) == [])
  {
    hide JournalBytes, Base, Numbered, Replayed, EachOnce, Accounts;
  }

  /** Whatever a failed write has left: the file of a halted worker reads as every epoch that was acknowledged and
      then what the debris holds, and passes through the published world; it is refused exactly when the debris,
      read as the next epochs, is corrupt. */
  lemma HaltKeepsReceipts(w: Setup, s: State, bytes: seq<byte>, schedule: nat -> Outcome)
    requires Halted(w, s, bytes, schedule) && ReadsBack(w.codec) && Recoverable(w.codec, s.journal)
    ensures JournalBytes(w.codec, s.journal) <= bytes
    ensures var more := ScanFrom(EPOCH_MAGIC, AcceptEpoch(w.codec), Debris(w, s, bytes), s.journal, 0);
      && ReadJournal(w.codec, bytes) == Some(Shifted(more, |JournalBytes(w.codec, s.journal)|))
      && (more.Scan? ==> s.journal <= more.items && s.applied <= |more.items|
                         && s.current == ReplayWorld(w.derive, more.items[..s.applied]))
      && (Debris(w, s, bytes) == [] ==> more == Scan(s.journal, 0))
    ensures forall i :: 0 <= i < |s.receipts| ==> IntentsOf(s.receipts[i].staged) == s.journal[|w.recovered| + i]
  {
    hide Accounts, P.Grounded, JournalBytes, ReadJournal, ReadsBack, Recoverable;
    hide ScanFrom, Explained, EachOnce, IntentsOf;
    HaltedFile(w, s, bytes, schedule);
    var debris := Debris(w, s, bytes);
    JournalAndDebris(w.codec, s.journal, debris);
    var more := ScanFrom(EPOCH_MAGIC, AcceptEpoch(w.codec), debris, s.journal, 0);
    if debris == [] {
      NothingLeft(EPOCH_MAGIC, AcceptEpoch(w.codec), debris, s.journal, 0);
    }
    if more.Scan? {
      var items, _ := ScanCanonical(EPOCH_MAGIC, AcceptEpoch(w.codec), debris, s.journal, 0);
      assert more.items == s.journal + items;
      assert (s.journal + items)[..s.applied] == s.journal[..s.applied];
    }
  }

  /** A new worker can start on what recovery leaves of a halted worker's file, as long as the debris holds no further
      epoch, or is part of the record of one. */
  lemma RestartAfterHalt(w: Setup, s: State, bytes: seq<byte>, schedule: nat -> Outcome, next: seq<P.Intent>,
                         epochs: seq<seq<P.Intent>>, offset: nat)
    requires Halted(w, s, bytes, schedule) && ReadsBack(w.codec) && Recoverable(w.codec, s.journal + [next])
    requires ReadJournal(w.codec, bytes) == Some(Scan(epochs, offset))
    requires epochs == s.journal || bytes <= JournalBytes(w.codec, s.journal + [next])
    ensures epochs in {s.journal, s.journal + [next]} && offset <= |bytes|
    ensures var again := w.(recovered := epochs);
      Running(again, Started(again, offset, ReplayWorld(w.derive, epochs)), bytes[..offset])
  {
    hide InOrder, Numbered, Replayed, Windowed, P.Grounded, JournalBytes, ReadJournal;
    hide ReadsBack, Recoverable, ScanFrom, Accounts, EachOnce;
    HaltedFile(w, s, bytes, schedule);
    var journal := JournalBytes(w.codec, s.journal);
    if bytes <= JournalBytes(w.codec, s.journal + [next]) {
      var all := JournalBytes(w.codec, s.journal + [next]);
      assert all[..|bytes|] == bytes;
      CrashRecovery(w.codec, s.journal, next, |bytes|);
      assert bytes[..offset] == if |bytes| == |all| then all else journal;
    } else {
      var debris := Debris(w, s, bytes);
      RecoverableFront(w.codec, s.journal, next);
      JournalAndDebris(w.codec, s.journal, debris);
      NoMoreItems(w.codec, s.journal, debris);
      assert bytes[..offset] == journal;
    }
    var again := w.(recovered := epochs);
    StartedRuns(again, bytes[..offset], ReplayWorld(w.derive, epochs));
  }

  lemma RecoverableFront(codec: Codec<P.Intent>, journal: seq<seq<P.Intent>>, next: seq<P.Intent>)
    requires Recoverable(codec, journal + [next])
    ensures Recoverable(codec, journal)
  {
    hide EpochPayload;
    forall i | 0 <= i < |journal| ensures |EpochPayload(codec, i + 1, journal[i])| <= MAX_PAYLOAD {
      assert journal[i] == (journal + [next])[i];
    }
  }

  lemma NoMoreItems(codec: Codec<P.Intent>, journal: seq<seq<P.Intent>>, debris: seq<byte>)
    ensures var more := ScanFrom(EPOCH_MAGIC, AcceptEpoch(codec), debris, journal, 0);
      more.Scan? && more.items == journal ==> more.offset == 0
  {
    hide ScanFrom, Accepted;
    var more := ScanFrom(EPOCH_MAGIC, AcceptEpoch(codec), debris, journal, 0);
    if more.Scan? && more.items == journal {
      var items, payloads := ScanCanonical(EPOCH_MAGIC, AcceptEpoch(codec), debris, journal, 0);
      assert items == [];
      AcceptedLengths(AcceptEpoch(codec), journal, items, payloads);
      assert debris[0..more.offset] == [];
    }
  }

  /** Recovery of a journal with anything behind it fails exactly when the debris is corrupt as the next epochs, or a
      call that reading or trimming takes fails. */
  lemma RecoversUnlessCorrupt(codec: Codec<P.Intent>, journal: seq<seq<P.Intent>>, debris: seq<byte>,
                              schedule: nat -> Outcome, k: nat)
    requires ReadsBack(codec) && Recoverable(codec, journal)
    ensures var more := ScanFrom(EPOCH_MAGIC, AcceptEpoch(codec), debris, journal, 0);
      RecoverView(codec, schedule, k, JournalBytes(codec, journal) + debris)
      == if more.Corrupt? || !schedule(k).ok || !schedule(k + 1).ok then None
         else if more.offset != |debris| && !(schedule(k + 2).ok && schedule(k + 3).ok) then None
         else Some(more.items)
  {
    hide JournalBytes, ReadJournal, ReadsBack, Recoverable, FromLittleEndian, ScanFrom, HeaderRuns;
    JournalAndDebris(codec, journal, debris);
  }

  /** Debris of at least a record's prefix that does not start with the magic of one, such as the zeros that an
      unwritten start leaves, makes the whole journal unreadable: no later open gets the receipts back. */
  lemma DebrisBlocksRecovery(codec: Codec<P.Intent>, journal: seq<seq<P.Intent>>, debris: seq<byte>,
                             schedule: nat -> Outcome, k: nat)
    requires ReadsBack(codec) && Recoverable(codec, journal)
    requires |debris| >= PREFIX_LEN && debris[..4] != EPOCH_MAGIC
    ensures RecoverView(codec, schedule, k, JournalBytes(codec, journal) + debris) == None
  {
    hide JournalBytes, ReadJournal, ReadsBack, Recoverable, OpenRuns, FromLittleEndian, RecoverView;
    RecoversUnlessCorrupt(codec, journal, debris, schedule, k);
    assert debris[0..0 + 4] == debris[..4];
  }
}
