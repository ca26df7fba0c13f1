/** The calls a kernel answers, and what any sequence of them does to the abstract kernel. */
module Calls {
  import opened Facts
  import opened Store

  datatype Call = NewEntity | Define(slot: Name, fact: Fact) | Forget(slot: Name)

  /** The abstract kernel: a definition store and an entity allocator. */
  datatype Machine = Machine(store: State, nextEntity: nat)

  const INITIAL: Machine := Machine(EMPTY, 1)

  function After(m: Machine, c: Call): (r: Machine)
    requires Inv(m.store)
    ensures Inv(r.store)
  {
    match c
    case NewEntity => Machine(m.store, m.nextEntity + 1)
    case Define(slot, fact) => DefineKeepsInv(m.store, slot, fact); Machine(AfterDefine(m.store, slot, fact), m.nextEntity)
    case Forget(slot) => ForgetKeepsInv(m.store, slot); Machine(AfterForget(m.store, slot), m.nextEntity)
  }

  /** The entity or record id a call returns. */
  function Returned(m: Machine, c: Call): nat {
    if c.NewEntity? then m.nextEntity else |m.store.log|
  }

  function AfterAll(m: Machine, calls: seq<Call>): (r: Machine)
    requires Inv(m.store)
    ensures Inv(r.store)
    decreases |calls|
  {
    if calls == [] then m else After(AfterAll(m, calls[..|calls| - 1]), calls[|calls| - 1])
  }

  function ReturnedAll(m: Machine, calls: seq<Call>): (r: seq<nat>)
    requires Inv(m.store)
    ensures |r| == |calls|
    decreases |calls|
  {
    if calls == [] then []
    else ReturnedAll(m, calls[..|calls| - 1]) + [Returned(AfterAll(m, calls[..|calls| - 1]), calls[|calls| - 1])]
  }

  lemma InitialIsSound()
    ensures Inv(INITIAL.store)
  {
  }

  // ---- What the log says about the calls ----

  /** The calls that leave a record. */
  function Logged(calls: seq<Call>): seq<Call> {
    if calls == [] then []
    else Logged(calls[..|calls| - 1]) + if calls[|calls| - 1].NewEntity? then [] else [calls[|calls| - 1]]
  }

  /** The slots' stacks after some logged calls, numbered as they were logged. */
  function StacksBy(logged: seq<Call>): Stacks {
    if logged == [] then map[]
    else
      var n := |logged| - 1;
      match logged[n]
      case NewEntity => StacksBy(logged[..n])
      case Define(slot, fact) => Push(StacksBy(logged[..n]), n, slot, fact)
      case Forget(slot) => Pop(StacksBy(logged[..n]), slot)
  }

  function TopId(stacks: Stacks, slot: Name): Option<nat> {
    if slot in stacks && stacks[slot] != [] then Some(stacks[slot][|stacks[slot]| - 1].id) else None
  }

  lemma HeadIsTop(s: State, slot: Name)
    requires Inv(s)
    ensures HeadOf(s.head, slot) == TopId(StacksOf(s), slot)
  {
    if slot in s.head {
      TopIsHead(s, slot);
    }
  }

  /** A record names its call, the definition on top of its slot before the call, and the one on top after it. */
  ghost predicate Tells(r: Record, i: nat, c: Call, before: Stacks, after: Stacks) {
    && r.id == i
    && (c.Define? ==> r.kind == DefineKind && r.slot == c.slot && r.fact == Some(c.fact))
    && (c.Forget? ==> r.kind == ForgetKind && r.slot == c.slot && r.fact == None)
    && r.previousHead == TopId(before, r.slot) && r.resultingHead == TopId(after, r.slot)
  }

  lemma NewRecordTells(s: State, c: Call)
    requires Inv(s) && !c.NewEntity?
    ensures var after := After(Machine(s, 1), c).store;
      && |after.log| == |s.log| + 1 && after.log[..|s.log|] == s.log
      && StacksOf(after) == (if c.Define? then Push(StacksOf(s), |s.log|, c.slot, c.fact) else Pop(StacksOf(s), c.slot))
      && Tells(after.log[|s.log|], |s.log|, c, StacksOf(s), StacksOf(after))
  {
    hide StacksOf, Inv, TopId;
    var after := After(Machine(s, 1), c).store;
    HeadIsTop(s, c.slot);
    HeadIsTop(after, c.slot);
    match c
    case Define(slot, fact) => DefinePushes(s, slot, fact);
    case Forget(slot) =>
      ForgetPops(s, slot);
      HeadAfterForget(s, slot);
  }

  lemma HeadAfterForget(s: State, slot: Name)
    requires Inv(s)
    ensures HeadOf(AfterForget(s, slot).head, slot) == Revealed(s, slot)
  {
  }

  /** After any calls every record of the log tells its call and what it did to its slot, and the stacks are those that
      pushing and popping gives. */
  lemma {:induction false} LogTellsCalls(calls: seq<Call>)
    ensures Inv(INITIAL.store)
    ensures var s, logged := AfterAll(INITIAL, calls).store, Logged(calls);
      && StacksOf(s) == StacksBy(logged) && |s.log| == |logged|
      && forall i :: 0 <= i < |logged| ==>
           Tells(s.log[i], i, logged[i], StacksBy(logged[..i]), StacksBy(logged[..i + 1]))
    decreases |calls|
  {
    InitialIsSound();
    hide Tells, StacksBy, StacksOf, Inv, After;
    if calls == [] {
      NoStacks();
    } else {
      var front, c := calls[..|calls| - 1], calls[|calls| - 1];
      LogTellsCalls(front);
      var m, before := AfterAll(INITIAL, front), Logged(front);
      StoreAfter(m, c);
      if c.NewEntity? {
        assert before + [] == before;
      } else {
        var logged := Logged(calls);
        NewRecordTells(m.store, c);
        StacksMore(before, c);
        assert logged[..|before|] == before && logged[..|logged|] == logged;
        forall i | 0 <= i < |before|
          ensures Tells(AfterAll(INITIAL, calls).store.log[i], i, logged[i], StacksBy(logged[..i]), StacksBy(logged[..i + 1]))
        {
          assert logged[..i] == before[..i] && logged[..i + 1] == before[..i + 1];
          assert AfterAll(INITIAL, calls).store.log[..|before|][i] == m.store.log[i];
        }
      }
    }
  }

  lemma NoStacks()
    requires Inv(INITIAL.store)
    ensures StacksOf(INITIAL.store) == StacksBy([])
  {
  }

  lemma StacksMore(logged: seq<Call>, c: Call)
    requires !c.NewEntity?
    ensures StacksBy(logged + [c])
         == if c.Define? then Push(StacksBy(logged), |logged|, c.slot, c.fact) else Pop(StacksBy(logged), c.slot)
  {
    assert (logged + [c])[..|logged|] == logged;
  }

  lemma StoreAfter(m: Machine, c: Call)
    requires Inv(m.store)
    ensures c.NewEntity? ==> After(m, c).store == m.store
    ensures !c.NewEntity? ==> After(m, c).store == After(Machine(m.store, 1), c).store
  {
  }

  lemma {:induction false} CountsAfter(calls: seq<Call>)
    ensures Inv(INITIAL.store)
    ensures var m := AfterAll(INITIAL, calls);
      |m.store.log| == |Logged(calls)| <= |calls| && m.nextEntity == 1 + |calls| - |Logged(calls)|
    decreases |calls|
  {
    InitialIsSound();
    hide Inv;
    if calls != [] {
      CountsAfter(calls[..|calls| - 1]);
    }
  }

  /** Records are numbered from 0 and entities from 1, each in the order of their calls. */
  lemma {:induction false} NumbersInOrder(calls: seq<Call>, i: nat)
    requires i < |calls|
    ensures Inv(INITIAL.store) && |Logged(calls[..i])| <= i
    ensures ReturnedAll(INITIAL, calls)[i]
         == if calls[i].NewEntity? then 1 + i - |Logged(calls[..i])| else |Logged(calls[..i])|
    decreases |calls|
  {
    InitialIsSound();
    hide Inv, AfterAll, Logged;
    var front := calls[..|calls| - 1];
    CountsAfter(calls[..i]);
    if i < |front| {
      NumbersInOrder(front, i);
      assert calls[..i] == front[..i];
    }
  }
}
