/** What a compiled program does, said on the kernel's calls and stacks alone: a temporary is the entity that its
    allocation gives, an expectation looks at the top of its slot, and the first one that is not met ends the run. */
module DirectLaws {
  import opened Facts
  import opened Store
  import opened Interpreter
  import opened Compiler
  import C = Calls
  import W = Worlds

  /** The atom behind a reference, when the first allocation gives entity `first`. */
  function Meant(first: nat, ref: AtomRef): Atom {
    match ref
    case EntityRef(id) => Entity(id)
    case TempRef(index) => Entity(first + index)
    case LiteralRef(text) => Literal(text)
  }

  /** The kernel calls behind a call. */
  function Effect(first: nat, call: Call): seq<C.Call> {
    match call
    case Allocate => [C.NewEntity]
    case Define(slot, subject, relation, target) =>
      [C.Define(slot, Fact(Meant(first, subject), relation, Meant(first, target)))]
    case Forget(slot) => [C.Forget(slot)]
    case ExpectObject(_, _) => []
  }

  function Effects(first: nat, calls: seq<Call>): seq<C.Call> {
    if calls == [] then [] else Effect(first, calls[0]) + Effects(first, calls[1..])
  }

  function Expectations(calls: seq<Call>): nat {
    if calls == [] then 0 else (if calls[0].ExpectObject? then 1 else 0) + Expectations(calls[1..])
  }

  /** An expectation is met when its slot is not empty and the fact on top has the expected object. */
  ghost predicate Met(m: C.Machine, first: nat, call: Call)
    requires Inv(m.store)
  {
    call.ExpectObject? ==>
      var fact := ResolveIn(StacksOf(m.store), call.slot);
      fact.Some? && fact.value.target == Meant(first, call.expected)
  }

  /** Call `i`, made after the kernel calls of those before it. */
  ghost predicate MetAt(m: C.Machine, first: nat, calls: seq<Call>, i: nat)
    requires Inv(m.store) && i < |calls|
  {
    Met(C.AfterAll(m, Effects(first, calls[..i])), first, calls[i])
  }

  /** The first `n` calls are met, and the one behind them, if there is one, is not. */
  ghost predicate StopsAt(m: C.Machine, first: nat, calls: seq<Call>, n: nat)
    requires Inv(m.store) && n <= |calls|
  {
    (forall i :: 0 <= i < n ==> MetAt(m, first, calls, i)) && (n < |calls| ==> !MetAt(m, first, calls, n))
  }

  /** The temporaries allocated so far are the entities from `first` on, and the kernel gives the next one. */
  ghost predicate Counted(s: Direct, first: nat) {
    s.machine.nextEntity == first + |s.temps| && forall i :: 0 <= i < |s.temps| ==> s.temps[i] == first + i
  }

  lemma OneEffect(s: Direct, first: nat, call: Call)
    requires Inv(s.machine.store) && CallFits(call, |s.temps|) && Counted(s, first)
    ensures var meaning := DirectCall(s, call);
      && Counted(meaning.state, first) && meaning.state.machine == C.AfterAll(s.machine, Effect(first, call))
      && meaning.state.expectations == s.expectations + Expectations([call])
      && (meaning.Done? <==> Met(s.machine, first, call))
      && (meaning.Failed? ==> call.ExpectObject? && meaning.slot == call.slot && meaning.state.machine == s.machine
                              && (meaning.empty <==> ResolveIn(StacksOf(s.machine.store), call.slot).None?))
  {
    hide Inv, Resolved, StacksOf;
    var effect := Effect(first, call);
    assert [call][1..] == [] && Expectations([]) == 0;
    assert C.AfterAll(s.machine, []) == s.machine;
    if effect != [] {
      assert effect[..0] == [];
      assert C.AfterAll(s.machine, effect) == C.After(s.machine, effect[0]);
    }
    if call.ExpectObject? {
      ResolvedIsTop(s.machine.store, call.slot);
    }
  }

  lemma MetBehind(m: C.Machine, first: nat, calls: seq<Call>, i: nat)
    requires Inv(m.store) && 0 < i < |calls|
    ensures var next := C.AfterAll(m, Effect(first, calls[0]));
      MetAt(m, first, calls, i) <==> MetAt(next, first, calls[1..], i - 1)
  {
    hide Inv, Met, Effect;
    EffectsBehind(m, first, calls, i);
  }

  lemma EffectsBehind(m: C.Machine, first: nat, calls: seq<Call>, i: nat)
    requires Inv(m.store) && 0 < i <= |calls|
    ensures var next := C.AfterAll(m, Effect(first, calls[0]));
      C.AfterAll(m, Effects(first, calls[..i])) == C.AfterAll(next, Effects(first, calls[1..][..i - 1]))
  {
    hide Inv, Effect, C.AfterAll;
    assert calls[..i][1..] == calls[1..][..i - 1];
    W.CallsConcat(m, Effect(first, calls[0]), Effects(first, calls[1..][..i - 1]));
  }

  lemma StopsBehind(m: C.Machine, first: nat, calls: seq<Call>, n: nat)
    requires Inv(m.store) && 0 < n <= |calls| && StopsAt(m, first, calls, n)
    ensures var next := C.AfterAll(m, Effect(first, calls[0]));
      Met(m, first, calls[0]) && StopsAt(next, first, calls[1..], n - 1)
  {
    hide Inv, MetAt, Effect;
    var next, rest := C.AfterAll(m, Effect(first, calls[0])), calls[1..];
    FirstMet(m, first, calls);
    assert MetAt(m, first, calls, 0);
    forall i | 0 <= i < n - 1 ensures MetAt(next, first, rest, i) {
      MetBehind(m, first, calls, i + 1);
      assert MetAt(m, first, calls, i + 1);
    }
    if n < |calls| {
      MetBehind(m, first, calls, n);
    }
  }

  lemma FirstMet(m: C.Machine, first: nat, calls: seq<Call>)
    requires Inv(m.store) && calls != []
    ensures MetAt(m, first, calls, 0) <==> Met(m, first, calls[0])
    ensures C.AfterAll(m, Effects(first, calls[..0])) == m
  {
    hide Inv, Met;
    assert calls[..0] == [];
    assert C.AfterAll(m, []) == m;
  }

  lemma ExpectationsBehind(calls: seq<Call>, n: nat)
    requires 0 < n <= |calls|
    ensures Expectations(calls[..n]) == Expectations([calls[0]]) + Expectations(calls[1..][..n - 1])
  {
    assert calls[..n][1..] == calls[1..][..n - 1];
    assert [calls[0]][1..] == [] && Expectations([]) == 0;
  }

  /** Making the calls one by one is making their kernel calls up to the first expectation that is not met. */
  lemma {:induction false} DirectMeans(s: Direct, first: nat, calls: seq<Call>, n: nat)
    requires Inv(s.machine.store) && WellFormed(calls, |s.temps|) && Counted(s, first)
    requires n <= |calls| && StopsAt(s.machine, first, calls, n)
    ensures var meaning := DirectAll(s, calls);
      var at := C.AfterAll(s.machine, Effects(first, calls[..n]));
      && meaning.state.machine == at && (meaning.Done? <==> n == |calls|)
      && meaning.state.expectations == s.expectations + Expectations(calls[..if n < |calls| then n + 1 else n])
      && (meaning.Failed? ==> calls[n].ExpectObject? && meaning.slot == calls[n].slot
                              && (meaning.empty <==> ResolveIn(StacksOf(at.store), calls[n].slot).None?))
    decreases |calls|
  {
    hide Inv, DirectCall, Counted, StopsAt, Effect, MetAt, Met, C.AfterAll, StacksOf, Expectations, CallFits;
    if calls == [] {
      assert calls[..n] == [];
      Nothing(s.machine, first);
    } else {
      OneEffect(s, first, calls[0]);
      FirstMet(s.machine, first, calls);
      ExpectationsBehind(calls, 1);
      assert calls[1..][..0] == [] && Expectations([]) == 0 by { Nothing(s.machine, first); }
      StopsFirst(s.machine, first, calls, n);
      if n > 0 {
        StopsBehind(s.machine, first, calls, n);
        EffectsBehind(s.machine, first, calls, n);
        ExpectationsBehind(calls, if n < |calls| then n + 1 else n);
        DirectMeans(DirectCall(s, calls[0]).state, first, calls[1..], n - 1);
      }
    }
  }

  lemma StopsFirst(m: C.Machine, first: nat, calls: seq<Call>, n: nat)
    requires Inv(m.store) && calls != [] && n <= |calls| && StopsAt(m, first, calls, n)
    ensures n > 0 <==> MetAt(m, first, calls, 0)
  {
    hide MetAt;
  }

  lemma Nothing(m: C.Machine, first: nat)
    requires Inv(m.store)
    ensures C.AfterAll(m, Effects(first, [])) == m && Expectations([]) == 0
  {
  }

  /** The compiled frame of any program, run on any kernel: if every expectation is met where it stands, the run
      finishes and the kernel is the one that made all the program's calls; otherwise it halts at the first one that is
      not, which it names, on the kernel that made the calls before it. */
  lemma CompiledFrameMeans(calls: seq<Call>, namespace: nat, machine: C.Machine, n: nat)
    requires Inv(machine.store) && WellFormed(calls, 0)
    requires Small(machine.store) && machine.nextEntity + Allocations(calls) <= LITERAL_BASE
    requires n <= |calls| && StopsAt(machine, machine.nextEntity, calls, n)
    ensures var run := RunFrame(machine, FrameOf(CompileAll(NEW_DRAFT, calls, 0), namespace));
      var at := C.AfterAll(machine, Effects(machine.nextEntity, calls[..n]));
      && run.vm.machine == at && (run.Finished? <==> n == |calls|)
      && run.vm.expectations == Expectations(calls[..if n < |calls| then n + 1 else n])
      && (run.Halted? ==> calls[n].ExpectObject?
                          && run.halt == Violation(calls[n].slot, ResolveIn(StacksOf(at.store), calls[n].slot).None?))
  {
    hide Inv, RunFrame, Small, FrameOf, CompileAll, StopsAt, C.AfterAll, Effects, Expectations, StacksOf, DirectAll;
    var start := Direct(machine, [], 0);
    assert Counted(start, machine.nextEntity);
    CompiledRunsAsMeant(calls, namespace, machine);
    DirectMeans(start, machine.nextEntity, calls, n);
  }
}
