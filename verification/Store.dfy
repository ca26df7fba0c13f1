/** The append-only definition log: one head per slot, and `previousHead` links that make every slot a stack. */
module Store {
  import opened Facts

  datatype RecordKind = DefineKind | ForgetKind

  datatype Record = Record(id: nat, kind: RecordKind, slot: Name, fact: Option<Fact>,
                           previousHead: Option<nat>, resultingHead: Option<nat>)

  /** The abstract value of a definition store, whichever containers hold it. */
  datatype State = State(log: seq<Record>, head: map<Name, nat>, history: map<Name, seq<nat>>)

  const EMPTY: State := State([], map[], map[])

  function HeadOf(head: map<Name, nat>, slot: Name): Option<nat> {
    if slot in head then Some(head[slot]) else None
  }

  function HistoryOf(history: map<Name, seq<nat>>, slot: Name): seq<nat> {
    if slot in history then history[slot] else []
  }

  // ---- The two appends ----

  function DefineRecord(s: State, slot: Name, fact: Fact): Record {
    Record(|s.log|, DefineKind, slot, Some(fact), HeadOf(s.head, slot), Some(|s.log|))
  }

  function AfterDefine(s: State, slot: Name, fact: Fact): State {
    State(s.log + [DefineRecord(s, slot, fact)],
          s.head[slot := |s.log|],
          s.history[slot := HistoryOf(s.history, slot) + [|s.log|]])
  }

  /** The definition a forget uncovers: the one below the current head. */
  function Revealed(s: State, slot: Name): Option<nat>
    requires slot in s.head ==> s.head[slot] < |s.log|
  {
    if slot in s.head then s.log[s.head[slot]].previousHead else None
  }

  function ForgetRecord(s: State, slot: Name): Record
    requires slot in s.head ==> s.head[slot] < |s.log|
  {
    Record(|s.log|, ForgetKind, slot, None, HeadOf(s.head, slot), Revealed(s, slot))
  }

  function AfterForget(s: State, slot: Name): State
    requires slot in s.head ==> s.head[slot] < |s.log|
  {
    State(s.log + [ForgetRecord(s, slot)],
          match Revealed(s, slot) case Some(id) => s.head[slot := id] case None => s.head - {slot},
          s.history[slot := HistoryOf(s.history, slot) + [|s.log|]])
  }

  // ---- The invariant ----

  predicate IsDefinition(log: seq<Record>, id: nat, slot: Name) {
    id < |log| && log[id].kind == DefineKind && log[id].fact.Some? && log[id].slot == slot
  }

  /** A record is numbered by its position; its previous head is an earlier definition of its slot. */
  predicate RecordInv(log: seq<Record>, i: nat)
    requires i < |log|
  {
    && log[i].id == i
    && (log[i].kind == DefineKind <==> log[i].fact.Some?)
    && (log[i].previousHead.Some? ==> log[i].previousHead.value < i && IsDefinition(log, log[i].previousHead.value, log[i].slot))
  }

  /** The record ids of a slot, oldest first. */
  function IdsOf(log: seq<Record>, slot: Name): seq<nat> {
    if log == [] then []
    else IdsOf(log[..|log| - 1], slot) + if log[|log| - 1].slot == slot then [|log| - 1] else []
  }

  ghost predicate Inv(s: State) {
    && (forall i :: 0 <= i < |s.log| ==> RecordInv(s.log, i))
    && (forall slot :: slot in s.head ==> IsDefinition(s.log, s.head[slot], slot))
    && (forall slot :: HistoryOf(s.history, slot) == IdsOf(s.log, slot))
  }

  lemma ExtendRecords(log: seq<Record>, r: Record)
    requires forall i :: 0 <= i < |log| ==> RecordInv(log, i)
    requires RecordInv(log + [r], |log|)
    ensures forall i :: 0 <= i < |log + [r]| ==> RecordInv(log + [r], i)
    ensures forall slot :: IdsOf(log + [r], slot) == IdsOf(log, slot) + if r.slot == slot then [|log|] else []
  {
    var log' := log + [r];
    forall i | 0 <= i < |log'| ensures RecordInv(log', i) {
      if i < |log| {
        assert RecordInv(log, i);
      }
    }
    assert log'[..|log|] == log;
  }

  lemma DefineKeepsInv(s: State, slot: Name, fact: Fact)
    requires Inv(s)
    ensures Inv(AfterDefine(s, slot, fact))
  {
    ExtendRecords(s.log, DefineRecord(s, slot, fact));
  }

  lemma ForgetKeepsInv(s: State, slot: Name)
    requires Inv(s)
    ensures Inv(AfterForget(s, slot))
  {
    if slot in s.head {
      assert RecordInv(s.log, s.head[slot]);
    }
    ExtendRecords(s.log, ForgetRecord(s, slot));
  }

  // ---- Slots as stacks ----

  type Stacks = map<Name, seq<Entry>>

  ghost predicate Chained(log: seq<Record>) {
    forall i :: 0 <= i < |log| ==> RecordInv(log, i)
  }

  function EntryAt(log: seq<Record>, id: nat): Entry
    requires id < |log| && log[id].fact.Some?
  {
    Entry(id, log[id].slot, log[id].fact.value)
  }

  /** The stack under a definition, bottom first. Previous heads strictly decrease, so the walk ends. */
  ghost function StackAt(log: seq<Record>, id: nat): seq<Entry>
    requires Chained(log) && id < |log| && log[id].fact.Some?
  {
    assert RecordInv(log, id);
    (match log[id].previousHead case None => [] case Some(p) => StackAt(log, p)) + [EntryAt(log, id)]
  }

  ghost function StacksOf(s: State): Stacks
    requires Inv(s)
  {
    map slot | slot in s.head :: StackAt(s.log, s.head[slot])
  }

  function Push(stacks: Stacks, id: nat, slot: Name, fact: Fact): Stacks {
    stacks[slot := (if slot in stacks then stacks[slot] else []) + [Entry(id, slot, fact)]]
  }

  function Pop(stacks: Stacks, slot: Name): Stacks {
    if slot !in stacks then stacks
    else if |stacks[slot]| <= 1 then stacks - {slot}
    else stacks[slot := stacks[slot][..|stacks[slot]| - 1]]
  }

  lemma {:induction false} StackStable(log: seq<Record>, r: Record, id: nat)
    requires Chained(log) && Chained(log + [r]) && id < |log| && log[id].fact.Some?
    ensures StackAt(log + [r], id) == StackAt(log, id)
    decreases id
  {
    assert RecordInv(log, id);
    match log[id].previousHead
    case None =>
    case Some(p) => StackStable(log, r, p);
  }

  lemma StacksStable(s: State, r: Record, slot: Name)
    requires Inv(s) && Chained(s.log + [r]) && slot in s.head
    ensures StackAt(s.log + [r], s.head[slot]) == StacksOf(s)[slot]
  {
    StackStable(s.log, r, s.head[slot]);
  }

  /** A define pushes on its slot's stack and touches no other. */
  lemma DefinePushes(s: State, slot: Name, fact: Fact)
    requires Inv(s)
    ensures Inv(AfterDefine(s, slot, fact))
    ensures StacksOf(AfterDefine(s, slot, fact)) == Push(StacksOf(s), |s.log|, slot, fact)
  {
    hide StackAt, Inv;
    DefineKeepsInv(s, slot, fact);
    var after, expected := StacksOf(AfterDefine(s, slot, fact)), Push(StacksOf(s), |s.log|, slot, fact);
    forall x | x in after ensures after[x] == expected[x] {
      DefineStack(s, slot, fact, x);
    }
  }

  lemma DefineStack(s: State, slot: Name, fact: Fact, x: Name)
    requires Inv(s) && Inv(AfterDefine(s, slot, fact)) && x in AfterDefine(s, slot, fact).head
    ensures StacksOf(AfterDefine(s, slot, fact))[x] == Push(StacksOf(s), |s.log|, slot, fact)[x]
  {
    hide StackAt, IdsOf, RecordInv;
    if x in s.head {
      StacksStable(s, DefineRecord(s, slot, fact), x);
    }
    if x == slot {
      NewStack(AfterDefine(s, slot, fact).log, |s.log|);
    }
  }

  /** A definition's stack is the stack of its previous head with the definition on top. */
  lemma NewStack(log: seq<Record>, id: nat)
    requires Chained(log) && id < |log| && log[id].fact.Some?
    ensures match log[id].previousHead
      case None => StackAt(log, id) == [EntryAt(log, id)]
      case Some(p) => p < id && log[p].fact.Some? && StackAt(log, id) == StackAt(log, p) + [EntryAt(log, id)]
  {
    assert RecordInv(log, id);
  }

  /** A forget pops its slot's stack, and does nothing but log itself when there is none. */
  lemma ForgetPops(s: State, slot: Name)
    requires Inv(s)
    ensures Inv(AfterForget(s, slot))
    ensures StacksOf(AfterForget(s, slot)) == Pop(StacksOf(s), slot)
  {
    hide StackAt, AfterForget, Pop;
    ForgetKeepsInv(s, slot);
    ForgetKeys(s, slot);
    var after, expected := StacksOf(AfterForget(s, slot)), Pop(StacksOf(s), slot);
    forall x | x in after ensures after[x] == expected[x] {
      ForgetStack(s, slot, x);
    }
  }

  lemma ForgetStack(s: State, slot: Name, x: Name)
    requires Inv(s) && Inv(AfterForget(s, slot)) && x in AfterForget(s, slot).head && x in Pop(StacksOf(s), slot)
    ensures StacksOf(AfterForget(s, slot))[x] == Pop(StacksOf(s), slot)[x]
  {
    if x == slot {
      RevealedStack(s, slot);
    } else {
      StacksStable(s, ForgetRecord(s, slot), x);
    }
  }

  lemma ForgetKeys(s: State, slot: Name)
    requires Inv(s)
    ensures AfterForget(s, slot).head.Keys == Pop(StacksOf(s), slot).Keys
  {
    if slot in s.head {
      assert RecordInv(s.log, s.head[slot]);
      match Revealed(s, slot)
      case None => assert |StackAt(s.log, s.head[slot])| == 1;
      case Some(id) => assert |StackAt(s.log, s.head[slot])| == |StackAt(s.log, id)| + 1;
    }
  }

  lemma RevealedStack(s: State, slot: Name)
    requires Inv(s) && Revealed(s, slot).Some?
    ensures var stack := StacksOf(s)[slot];
      var id := Revealed(s, slot).value;
      && Inv(AfterForget(s, slot)) && IsDefinition(s.log, id, slot)
      && |stack| > 1
      && StackAt(AfterForget(s, slot).log, id) == stack[..|stack| - 1]
  {
    ForgetKeepsInv(s, slot);
    var h := s.head[slot];
    assert RecordInv(s.log, h);
    var id := s.log[h].previousHead.value;
    StackStable(s.log, ForgetRecord(s, slot), id);
    assert StackAt(s.log, h) == StackAt(s.log, id) + [EntryAt(s.log, h)];
  }

  // ---- Reading a slot ----

  /** The facts of a slot's definitions, newest first, as the chain walk lists them. */
  function NewestFirst(stack: seq<Entry>): seq<Fact> {
    if stack == [] then [] else [stack[|stack| - 1].fact] + NewestFirst(stack[..|stack| - 1])
  }

  /** What the stacks say about a slot. */
  function DefinitionsIn(stacks: Stacks, slot: Name): seq<Fact> {
    if slot in stacks then NewestFirst(stacks[slot]) else []
  }

  function ResolveIn(stacks: Stacks, slot: Name): Option<Fact> {
    if slot in stacks && stacks[slot] != [] then Some(stacks[slot][|stacks[slot]| - 1].fact) else None
  }

  /** A stack is last in, first out: the newest definition answers, a forget uncovers the others, a define covers
      them until it is forgotten, and no other slot sees either. */
  lemma PopAnswers(stacks: Stacks, slot: Name)
    requires slot in stacks ==> stacks[slot] != []
    ensures var facts := DefinitionsIn(stacks, slot);
      && ResolveIn(stacks, slot) == (if facts == [] then None else Some(facts[0]))
      && DefinitionsIn(Pop(stacks, slot), slot) == (if facts == [] then [] else facts[1..])
    ensures forall other :: other != slot ==> DefinitionsIn(Pop(stacks, slot), other) == DefinitionsIn(stacks, other)
  {
    if slot in stacks {
      var front := stacks[slot][..|stacks[slot]| - 1];
      assert DefinitionsIn(stacks, slot)[1..] == NewestFirst(front);
      assert front == [] ==> NewestFirst(front) == [];
    }
  }

  lemma PushAnswers(stacks: Stacks, id: nat, slot: Name, fact: Fact)
    requires slot in stacks ==> stacks[slot] != []
    ensures var pushed := Push(stacks, id, slot, fact);
      && ResolveIn(pushed, slot) == Some(fact) && DefinitionsIn(pushed, slot) == [fact] + DefinitionsIn(stacks, slot)
      && (forall other :: other != slot ==> DefinitionsIn(pushed, other) == DefinitionsIn(stacks, other))
      && Pop(pushed, slot) == stacks
  {
    var old_stack := if slot in stacks then stacks[slot] else [];
    var new_stack := old_stack + [Entry(id, slot, fact)];
    assert new_stack[..|new_stack| - 1] == old_stack;
    assert NewestFirst([]) == [];
  }

  lemma NoEmptyStack(s: State, slot: Name)
    requires Inv(s)
    ensures slot in StacksOf(s) ==> StacksOf(s)[slot] != []
  {
  }

  /** On every slot the store is last in, first out: a define answers at once and covers what was there, and the forget
      behind it brings back exactly the stacks from before. */
  lemma ForgetUndoesDefine(s: State, slot: Name, fact: Fact)
    requires Inv(s)
    ensures var defined := AfterDefine(s, slot, fact);
      && Inv(defined) && Inv(AfterForget(defined, slot)) && StacksOf(AfterForget(defined, slot)) == StacksOf(s)
      && ResolveIn(StacksOf(defined), slot) == Some(fact)
      && DefinitionsIn(StacksOf(defined), slot) == [fact] + DefinitionsIn(StacksOf(s), slot)
      && forall other :: other != slot ==> DefinitionsIn(StacksOf(defined), other) == DefinitionsIn(StacksOf(s), other)
  {
    NoEmptyStack(s, slot);
    hide *;
    DefinePushes(s, slot, fact);
    ForgetPops(AfterDefine(s, slot, fact), slot);
    PushAnswers(StacksOf(s), |s.log|, slot, fact);
  }

  /** Any forget takes the newest definition away, if there is one, and no other slot sees it. */
  lemma ForgetUncovers(s: State, slot: Name)
    requires Inv(s)
    ensures Inv(AfterForget(s, slot))
    ensures var facts, after := DefinitionsIn(StacksOf(s), slot), StacksOf(AfterForget(s, slot));
      && DefinitionsIn(after, slot) == (if facts == [] then [] else facts[1..])
      && forall other :: other != slot ==> DefinitionsIn(after, other) == DefinitionsIn(StacksOf(s), other)
  {
    NoEmptyStack(s, slot);
    hide *;
    ForgetPops(s, slot);
    PopAnswers(StacksOf(s), slot);
  }

  ghost predicate IsChainStart(log: seq<Record>, start: Option<nat>) {
    start.Some? ==> 0 <= start.value < |log| && log[start.value].fact.Some?
  }

  /** The facts on the chain that starts at a record, newest first. */
  ghost function ChainFacts(log: seq<Record>, start: Option<nat>): seq<Fact>
    requires Chained(log) && IsChainStart(log, start)
  {
    if start.None? then [] else NewestFirst(StackAt(log, start.value))
  }

  lemma ChainEnd(log: seq<Record>)
    requires Chained(log)
    ensures ChainFacts(log, None) == []
  {
  }

  lemma ChainStep(log: seq<Record>, id: nat)
    requires Chained(log) && IsChainStart(log, Some(id))
    ensures IsChainStart(log, log[id].previousHead)
    ensures log[id].previousHead.Some? ==> log[id].previousHead.value < id
    ensures ChainFacts(log, Some(id)) == [log[id].fact.value] + ChainFacts(log, log[id].previousHead)
  {
    NewStack(log, id);
    var stack := StackAt(log, id);
    assert NewestFirst(stack) == [stack[|stack| - 1].fact] + NewestFirst(stack[..|stack| - 1]);
    match log[id].previousHead
    case None => assert stack == [EntryAt(log, id)] && stack[..0] == [];
    case Some(p) => assert stack[..|stack| - 1] == StackAt(log, p);
  }

  /** The chain walk of `definitions`, over any log it can index. */
  method WalkChain(log: seq<Record>, start: Option<nat>) returns (facts: seq<Fact>)
    requires Chained(log) && IsChainStart(log, start)
    ensures facts == ChainFacts(log, start)
  {
    hide Chained, ChainFacts, StackAt, NewestFirst;
    ChainEnd(log);
    ghost var all := ChainFacts(log, start);
    facts := [];
    var next := start;
    while next.Some?
      invariant IsChainStart(log, next)
      invariant facts + ChainFacts(log, next) == all
      decreases if next.None? then 0 else next.value + 1
    {
      var current := next.value;
      ChainStep(log, current);
      facts := facts + [log[current].fact.value];
      next := log[current].previousHead;
    }
  }

  /** Every stack of a store is nonempty and its top is the slot's head. */
  lemma TopIsHead(s: State, slot: Name)
    requires Inv(s) && slot in s.head
    ensures var stack := StacksOf(s)[slot];
      stack != [] && stack[|stack| - 1] == EntryAt(s.log, s.head[slot])
  {
  }

  // ---- Active entries in record order ----

  ghost predicate Ascending(ids: seq<nat>) {
    forall i, j :: 0 <= i < j < |ids| ==> ids[i] < ids[j]
  }

  lemma {:induction false} LeastWitness(ids: set<nat>) returns (m: nat)
    requires ids != {}
    ensures m in ids && forall n :: n in ids ==> m <= n
    decreases ids
  {
    var x :| x in ids;
    m := x;
    if ids != {x} {
      var least := LeastWitness(ids - {x});
      m := if x < least then x else least;
      assert forall n :: n in ids ==> n == x || n in ids - {x};
    }
  }

  lemma LeastExists(ids: set<nat>)
    requires ids != {}
    ensures exists m :: m in ids && forall n :: n in ids ==> m <= n
  {
    var _ := LeastWitness(ids);
  }

  function Least(ids: set<nat>): (m: nat)
    requires ids != {}
    ensures m in ids && forall n :: n in ids ==> m <= n
  {
    LeastExists(ids);
    var m :| m in ids && forall n :: n in ids ==> m <= n;
    m
  }

  /** A set of record ids in ascending order. */
  function SortedIds(ids: set<nat>): (r: seq<nat>)
    ensures Ascending(r)
    ensures forall id :: id in r <==> id in ids
    ensures |r| == |ids|
  {
    if ids == {} then []
    else
      var m := Least(ids);
      var rest := SortedIds(ids - {m});
      assert forall i :: 0 <= i < |rest| ==> rest[i] in ids - {m};
      [m] + rest
  }

  lemma {:induction false} AscendingUnique(a: seq<nat>, b: seq<nat>)
    requires Ascending(a) && Ascending(b)
    requires forall x :: x in a <==> x in b
    ensures a == b
    decreases |a|
  {
    assert b != [] ==> b[0] in a;
    if a != [] {
      assert a[0] in b && b != [] && b[0] in a;
      assert a[0] == b[0];
      forall x ensures x in a[1..] <==> x in b[1..] {
        if x in a[1..] {
          assert x in b && x != b[0];
        }
        if x in b[1..] {
          assert x in a && x != a[0];
        }
      }
      AscendingUnique(a[1..], b[1..]);
      assert a == [a[0]] + a[1..] && b == [b[0]] + b[1..];
    }
  }

  function HeadIds(s: State): set<nat> {
    set slot | slot in s.head :: s.head[slot]
  }

  predicate AllDefinitions(log: seq<Record>, ids: seq<nat>) {
    forall i :: 0 <= i < |ids| ==> ids[i] < |log| && log[ids[i]].fact.Some?
  }

  function EntriesAt(log: seq<Record>, ids: seq<nat>): (r: seq<Entry>)
    requires AllDefinitions(log, ids)
    ensures |r| == |ids| && forall i :: 0 <= i < |ids| ==> r[i] == EntryAt(log, ids[i])
  {
    seq(|ids|, i requires 0 <= i < |ids| => EntryAt(log, ids[i]))
  }

  lemma HeadsAreDefinitions(s: State)
    requires Inv(s)
    ensures AllDefinitions(s.log, SortedIds(HeadIds(s)))
    ensures |HeadIds(s)| == |s.head|
  {
    var ids := SortedIds(HeadIds(s));
    forall i | 0 <= i < |ids| ensures ids[i] < |s.log| && s.log[ids[i]].fact.Some? {
      assert ids[i] in HeadIds(s);
      var slot :| slot in s.head && s.head[slot] == ids[i];
      assert IsDefinition(s.log, s.head[slot], slot);
    }
    HeadCount(s, s.head.Keys);
    assert HeadIds(s) == set slot | slot in s.head.Keys :: s.head[slot];
  }

  lemma {:induction false} HeadCount(s: State, slots: set<Name>)
    requires Inv(s) && slots <= s.head.Keys
    ensures |set slot | slot in slots :: s.head[slot]| == |slots|
    decreases slots
  {
    if slots == {} {
      assert (set slot | slot in slots :: s.head[slot]) == {};
    } else {
      var x :| x in slots;
      HeadCount(s, slots - {x});
      var rest := set slot | slot in slots - {x} :: s.head[slot];
      assert IsDefinition(s.log, s.head[x], x);
      forall y | y in slots - {x} ensures s.head[y] != s.head[x] {
        assert IsDefinition(s.log, s.head[y], y);
      }
      assert (set slot | slot in slots :: s.head[slot]) == rest + {s.head[x]};
    }
  }

  /** The active entries of a store, in record order: the facts a query ranges over. */
  function ActiveEntries(s: State): seq<Entry>
    requires Inv(s)
  {
    HeadsAreDefinitions(s);
    EntriesAt(s.log, SortedIds(HeadIds(s)))
  }
}
