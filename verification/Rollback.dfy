/** What a failed frame leaves behind. The interpreter stops at the failing expectation and undoes nothing, so the
    kernel is back where it started only if nothing but expectations ran before it. */
module Rollback {
  import opened Facts
  import opened Store
  import opened Interpreter
  import opened Compiler
  import C = Calls

  /** The place of the first failing call, or the number of calls when none fails. */
  function FailsAt(s: Direct, calls: seq<Call>): (n: nat)
    requires Inv(s.machine.store) && WellFormed(calls, |s.temps|)
    ensures n <= |calls|
    ensures n < |calls| <==> DirectAll(s, calls).Failed?
    ensures n < |calls| ==> calls[n].ExpectObject?
    decreases |calls|
  {
    if calls == [] then 0
    else match DirectCall(s, calls[0])
      case Failed(_, _, _) => 0
      case Done(after) => 1 + FailsAt(after, calls[1..])
  }

  /** Every call but an expectation adds to this: a define or a forget to the log, an allocation to the allocator. */
  function Traces(m: C.Machine): nat { |m.store.log| + m.nextEntity }

  lemma CallLeavesTrace(s: Direct, call: Call)
    requires Inv(s.machine.store) && CallFits(call, |s.temps|)
    ensures call.ExpectObject? ==> DirectCall(s, call).state.machine == s.machine
    ensures !call.ExpectObject? ==> Traces(DirectCall(s, call).state.machine) == Traces(s.machine) + 1
  {
    hide Inv;
  }

  predicate OnlyExpectations(calls: seq<Call>, n: nat)
    requires n <= |calls|
  {
    forall j :: 0 <= j < n ==> calls[j].ExpectObject?
  }

  lemma OneMoreExpectation(calls: seq<Call>, n: nat)
    requires 0 < n <= |calls|
    ensures OnlyExpectations(calls, n) <==> calls[0].ExpectObject? && OnlyExpectations(calls[1..], n - 1)
  {
    assert forall j :: 0 < j < n ==> calls[j] == calls[1..][j - 1];
    assert forall j :: 0 <= j < n - 1 ==> calls[1..][j] == calls[j + 1];
  }

  lemma {:induction false} FailureLeavesTraces(s: Direct, calls: seq<Call>)
    requires Inv(s.machine.store) && WellFormed(calls, |s.temps|) && DirectAll(s, calls).Failed?
    ensures var n := FailsAt(s, calls);
      var machine := DirectAll(s, calls).state.machine;
      && (OnlyExpectations(calls, n) ==> machine == s.machine)
      && (!OnlyExpectations(calls, n) ==> Traces(machine) > Traces(s.machine))
      && Traces(machine) >= Traces(s.machine)
    decreases |calls|
  {
    hide Inv, DirectCall, OnlyExpectations;
    CallLeavesTrace(s, calls[0]);
    match DirectCall(s, calls[0])
    case Failed(_, _, _) =>
      NoneBeforeFirst(calls);
      FailedIsExpectation(s, calls[0]);
    case Done(after) =>
      FailureLeavesTraces(after, calls[1..]);
      OneMoreExpectation(calls, FailsAt(s, calls));
  }

  lemma NoneBeforeFirst(calls: seq<Call>)
    ensures OnlyExpectations(calls, 0)
  {
  }

  lemma FailedIsExpectation(s: Direct, call: Call)
    requires Inv(s.machine.store) && CallFits(call, |s.temps|) && DirectCall(s, call).Failed?
    ensures call.ExpectObject?
  {
  }

  /** A compiled frame that fails leaves the kernel as it found it exactly when every call before the failing
      expectation was an expectation too. */
  lemma FailedFrameIsRolledBack(calls: seq<Call>, namespace: nat, machine: C.Machine)
    requires Inv(machine.store) && WellFormed(calls, 0)
    requires Small(machine.store) && machine.nextEntity + Allocations(calls) <= LITERAL_BASE
    ensures var run := RunFrame(machine, FrameOf(CompileAll(NEW_DRAFT, calls, 0), namespace));
      run.Halted? ==> (run.vm.machine == machine <==> OnlyExpectations(calls, FailsAt(Direct(machine, [], 0), calls)))
  {
    hide Inv, RunFrame, Small, OnlyExpectations, FrameOf, CompileAll;
    CompiledRunsAsMeant(calls, namespace, machine);
    var start := Direct(machine, [], 0);
    if DirectAll(start, calls).Failed? {
      FailureLeavesTraces(start, calls);
    }
  }

  /** A forget counts even where there is nothing to forget: every slot resolves as before, but the log is longer. */
  lemma EmptyForgetIsLogged(m: C.Machine, slot: Name)
    requires Inv(m.store) && slot !in m.store.head
    ensures var after := C.After(m, C.Forget(slot));
      StacksOf(after.store) == StacksOf(m.store) && after != m && |after.store.log| == |m.store.log| + 1
  {
    ForgetPops(m.store, slot);
  }

  /** A define, followed by an expectation of another object. */
  function DefineThenMiss(slot: Name, relation: Name): (calls: seq<Call>)
    ensures WellFormed(calls, 0) && Allocations(calls) == 0
  {
    var definition, miss := Call.Define(slot, EntityRef(1), relation, EntityRef(2)), ExpectObject(slot, EntityRef(3));
    assert [definition, miss][1..] == [miss] && [miss][1..] == [];
    assert WellFormed([], 0) && WellFormed([miss], 0) && Allocations([]) == 0 && Allocations([miss]) == 0;
    [definition, miss]
  }

  /** Its frame fails, and the definition stays. */
  lemma FailedFrameKeepsDefinition(slot: Name, relation: Name, namespace: nat)
    ensures Inv(C.INITIAL.store)
    ensures var run := RunFrame(C.INITIAL, FrameOf(CompileAll(NEW_DRAFT, DefineThenMiss(slot, relation), 0), namespace));
      && run.Halted? && run.halt == Violation(slot, false) && run.vm.machine != C.INITIAL
      && slot in run.vm.machine.store.head
  {
    C.InitialIsSound();
    var calls, start := DefineThenMiss(slot, relation), Direct(C.INITIAL, [], 0);
    CompiledRunsAsMeant(calls, namespace, C.INITIAL);
    hide RunFrame, FrameOf, CompileAll;
    var after := DirectCall(start, calls[0]).state;
    assert calls[1..] == [calls[1]];
    assert DirectAll(start, calls) == DirectAll(after, [calls[1]]);
    assert DirectCall(after, calls[1]).Failed?;
  }
}
