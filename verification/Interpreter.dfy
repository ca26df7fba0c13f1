/** The stack interpreter that runs an instruction stream against a kernel. */
module Interpreter {
  import opened Words
  import opened Facts
  import opened Store
  import opened Isa
  import C = Calls
  import LegacyKernel

  /** Cells below this value are entities, cells from it on are literals. */
  const LITERAL_BASE: nat := 0x8000_0000_0000_0000

  const EXPECT_OBJECT: byte := 0
  const ALLOCATE: byte := 1
  const ALLOCATE_DISCARD: byte := 2
  const LOAD_LOCAL: byte := 3
  const STORE_LOCAL: byte := 4
  const PUSH_CELL: byte := 5
  const DEFINE: byte := 6
  const FORGET: byte := 7

  const EXTRA_LOCALS: nat := 16

  datatype Value = Nothing | EntityValue(id: nat) | CellValue(cell: nat)

  // ---- Dictionaries: a later entry replaces the value of an earlier one, in its place ----

  function Put(items: seq<DictEntry>, e: DictEntry): seq<DictEntry> {
    if items == [] then [e]
    else if items[0].0 == e.0 then [e] + items[1..]
    else [items[0]] + Put(items[1..], e)
  }

  function DictItems(table: seq<DictEntry>): seq<DictEntry> {
    if table == [] then [] else Put(DictItems(table[..|table| - 1]), table[|table| - 1])
  }

  function Lookup(items: seq<DictEntry>, key: nat): Option<Name> {
    if items == [] then None
    else if items[0].0 == key then Some(items[0].1)
    else Lookup(items[1..], key)
  }

  /** The first cell that holds a literal, or 0 when none does. */
  function CellOf(items: seq<DictEntry>, text: Name): nat {
    if items == [] then 0
    else if items[0].1 == text then items[0].0
    else CellOf(items[1..], text)
  }

  datatype Env = Env(slots: seq<DictEntry>, predicates: seq<DictEntry>, literals: seq<DictEntry>)

  function EnvOf(d: Dictionary): Env {
    Env(DictItems(d.slots), DictItems(d.predicates), DictItems(d.literals))
  }

  // ---- Values ----

  function Digits(n: nat): Name {
    (if n < 10 then [] else Digits(n / 10)) + [(48 + n % 10) as byte]
  }

  // "Entity_", "lit_" and "None"
  const ENTITY_PREFIX: Name := [0x45, 0x6E, 0x74, 0x69, 0x74, 0x79, 0x5F]
  const LITERAL_PREFIX: Name := [0x6C, 0x69, 0x74, 0x5F]
  const NONE_TEXT: Name := [0x4E, 0x6F, 0x6E, 0x65]

  function Rendered(v: Value): Name {
    match v
    case Nothing => NONE_TEXT
    case EntityValue(id) => ENTITY_PREFIX + Digits(id)
    case CellValue(cell) => Digits(cell)
  }

  function PredicateOf(env: Env, v: Value): Name {
    if v.CellValue? && Lookup(env.predicates, v.cell).Some? then Lookup(env.predicates, v.cell).value else Rendered(v)
  }

  function AtomOf(env: Env, v: Value): Option<Atom> {
    match v
    case Nothing => None
    case EntityValue(id) => Some(Entity(id))
    case CellValue(cell) =>
      if cell < LITERAL_BASE then Some(Entity(cell))
      else match Lookup(env.literals, cell)
        case Some(text) => Some(Literal(text))
        case None => Some(Literal(LITERAL_PREFIX + Digits(cell)))
  }

  /** Whether an expectation is met: the object's own cell is the expected one, or the expected cell holds it. */
  predicate Meets(env: Env, actual: Atom, expected: nat) {
    var actualCell := match actual case Entity(id) => id case Literal(text) => CellOf(env.literals, text);
    actualCell == expected || (actual.Literal? && Lookup(env.literals, expected) == Some(actual.text))
  }

  // ---- Execution ----

  datatype Vm = Vm(machine: C.Machine, locals: seq<Value>, stack: seq<Value>, expectations: nat)

  /** How a run can stop early: an expectation fails, on an empty slot or on another object, or the stream is malformed. */
  datatype Halt = Violation(slot: Name, empty: bool) | Malformed

  datatype Step = Go(vm: Vm, next: nat) | Stop(vm: Vm, halt: Halt)

  datatype Run = Finished(vm: Vm) | Halted(vm: Vm, halt: Halt)

  function Resolved(s: State, slot: Name): Option<Fact>
    requires Inv(s)
  {
    if slot in s.head then
      assert IsDefinition(s.log, s.head[slot], slot);
      s.log[s.head[slot]].fact
    else None
  }

  function StartVm(machine: C.Machine, frame: StreamFrame): Vm {
    Vm(machine, seq(frame.localCount + EXTRA_LOCALS, _ => Nothing), [], 0)
  }

  function Pushed(vm: Vm, v: Value): Vm { vm.(stack := vm.stack + [v]) }

  function StepAllocate(code: seq<Instruction>, vm: Vm, i: nat): (r: Step)
    requires i < |code| && Inv(vm.machine.store)
    ensures Inv(r.vm.machine.store) && (r.Go? ==> i < r.next <= |code|)
  {
    var entity := EntityValue(vm.machine.nextEntity);
    var after := vm.(machine := C.After(vm.machine, C.NewEntity));
    if i + 1 < |code| && code[i + 1].opcode == STORE_LOCAL then
      if code[i + 1].argument < |vm.locals| then Go(after.(locals := vm.locals[code[i + 1].argument := entity]), i + 2)
      else Stop(after, Malformed)
    else Go(Pushed(after, entity), i + 1)
  }

  function StepDefine(env: Env, token: nat, vm: Vm, i: nat): (r: Step)
    requires Inv(vm.machine.store)
    ensures Inv(r.vm.machine.store) && (r.Go? ==> r.next == i + 1)
  {
    var n := |vm.stack|;
    if n < 3 then Go(vm, i + 1)
    else
      var popped := vm.(stack := vm.stack[..n - 3]);
      var subject, target := AtomOf(env, vm.stack[n - 3]), AtomOf(env, vm.stack[n - 1]);
      var slot := Lookup(env.slots, token);
      if subject.None? || target.None? || slot.None? then Stop(popped, Malformed)
      else
        var fact := Fact(subject.value, PredicateOf(env, vm.stack[n - 2]), target.value);
        Go(popped.(machine := C.After(vm.machine, C.Define(slot.value, fact))), i + 1)
  }

  function StepExpect(env: Env, instruction: Instruction, vm: Vm, i: nat): (r: Step)
    requires Inv(vm.machine.store)
    ensures Inv(r.vm.machine.store) && (r.Go? ==> r.next == i + 1)
  {
    var after := vm.(expectations := vm.expectations + 1);
    match Lookup(env.slots, instruction.argument)
    case None => Stop(vm, Malformed)
    case Some(slot) =>
      match Resolved(vm.machine.store, slot)
      case None => Stop(after, Violation(slot, true))
      case Some(fact) =>
        if Meets(env, fact.target, instruction.immediate) then Go(after, i + 1) else Stop(after, Violation(slot, false))
  }

  function StepAt(env: Env, code: seq<Instruction>, vm: Vm, i: nat): (r: Step)
    requires i < |code| && Inv(vm.machine.store)
    ensures Inv(r.vm.machine.store) && (r.Go? ==> i < r.next <= |code|)
  {
    var now := code[i];
    var n := |vm.stack|;
    if now.opcode == ALLOCATE then StepAllocate(code, vm, i)
    else if now.opcode == ALLOCATE_DISCARD then Go(vm.(machine := C.After(vm.machine, C.NewEntity)), i + 1)
    else if now.opcode == STORE_LOCAL then
      if n == 0 || now.argument >= |vm.locals| then Stop(vm, Malformed)
      else Go(vm.(stack := vm.stack[..n - 1], locals := vm.locals[now.argument := vm.stack[n - 1]]), i + 1)
    else if now.opcode == LOAD_LOCAL then
      if now.argument >= |vm.locals| then Stop(vm, Malformed) else Go(Pushed(vm, vm.locals[now.argument]), i + 1)
    else if now.opcode == PUSH_CELL then Go(Pushed(vm, CellValue(now.immediate)), i + 1)
    else if now.opcode == DEFINE then StepDefine(env, now.argument, vm, i)
    else if now.opcode == FORGET then
      match Lookup(env.slots, now.argument)
      case None => Stop(vm, Malformed)
      case Some(slot) => Go(vm.(machine := C.After(vm.machine, C.Forget(slot))), i + 1)
    else if now.opcode == EXPECT_OBJECT then StepExpect(env, now, vm, i)
    else Go(vm, i + 1)
  }

  function RunFrom(env: Env, code: seq<Instruction>, vm: Vm, i: nat): Run
    requires i <= |code| && Inv(vm.machine.store)
    decreases |code| - i
  {
    if i == |code| then Finished(vm)
    else match StepAt(env, code, vm, i)
      case Stop(after, halt) => Halted(after, halt)
      case Go(after, next) => RunFrom(env, code, after, next)
  }

  function RunFrame(machine: C.Machine, frame: StreamFrame): Run
    requires Inv(machine.store)
  {
    RunFrom(EnvOf(frame.dictionary), frame.instructions, StartVm(machine, frame), 0)
  }

  // ---- The loop, on a kernel ----

  ghost function MachineOf(kernel: LegacyKernel.Kernel): C.Machine
    reads kernel
  {
    C.Machine(kernel.Model(), kernel.nextEntity)
  }

  method ReadDict(table: seq<DictEntry>) returns (items: seq<DictEntry>)
    ensures items == DictItems(table)
  {
    items := [];
    for i := 0 to |table|
      invariant items == DictItems(table[..i])
    {
      assert table[..i + 1][..i] == table[..i];
      items := Put(items, table[i]);
    }
    assert table[..|table|] == table;
  }

  /** One turn of the loop: the kernel calls it makes are those of the step, and it returns the record it appended. */
  method ExecuteStep(kernel: LegacyKernel.Kernel, env: Env, code: seq<Instruction>, i: nat, locals: seq<Value>,
                     stack: seq<Value>,
                     expectations: nat)
    returns (halt: Option<Halt>, next: nat, locals': seq<Value>, stack': seq<Value>, expectations': nat, appended: seq<Record>)
    requires kernel.Valid() && i < |code|
    modifies kernel
    ensures kernel.Valid() && kernel.log == old(kernel.log) + appended
    ensures Inv(old(MachineOf(kernel)).store)
    ensures StepAt(env, code, Vm(old(MachineOf(kernel)), locals, stack, expectations), i)
         == match halt case None => Go(Vm(MachineOf(kernel), locals', stack', expectations'), next)
                       case Some(h) => Stop(Vm(MachineOf(kernel), locals', stack', expectations'), h)
  {
    hide LegacyKernel.Kernel.Indexed, Inv, Lookup, Meets, AtomOf, PredicateOf;
    hide StacksOf, ResolveIn, AfterDefine, AfterForget;
    KernelIsSound(kernel);
    halt, next, locals', stack', expectations', appended := None, i + 1, locals, stack, expectations, [];
    var now, n := code[i], |stack|;
    if now.opcode == ALLOCATE {
      var id := kernel.NewEntity();
      if i + 1 < |code| && code[i + 1].opcode == STORE_LOCAL {
        if code[i + 1].argument < |locals| {
          locals', next := locals[code[i + 1].argument := EntityValue(id)], i + 2;
        } else {
          halt := Some(Malformed);
        }
      } else {
        stack' := stack + [EntityValue(id)];
      }
    } else if now.opcode == ALLOCATE_DISCARD {
      var _ := kernel.NewEntity();
    } else if now.opcode == STORE_LOCAL {
      if n == 0 || now.argument >= |locals| {
        halt := Some(Malformed);
      } else {
        stack', locals' := stack[..n - 1], locals[now.argument := stack[n - 1]];
      }
    } else if now.opcode == LOAD_LOCAL {
      if now.argument >= |locals| {
        halt := Some(Malformed);
      } else {
        stack' := stack + [locals[now.argument]];
      }
    } else if now.opcode == PUSH_CELL {
      stack' := stack + [CellValue(now.immediate)];
    } else if now.opcode == DEFINE {
      if n >= 3 {
        stack' := stack[..n - 3];
        var subject, target, slot := AtomOf(env, stack[n - 3]), AtomOf(env, stack[n - 1]), Lookup(env.slots, now.argument);
        if subject.None? || target.None? || slot.None? {
          halt := Some(Malformed);
        } else {
          var fact := Fact(subject.value, PredicateOf(env, stack[n - 2]), target.value);
          StepLogs(kernel.Model(), slot.value, fact);
          var id := kernel.Define(slot.value, fact);
          appended := [kernel.log[id]];
        }
      }
    } else if now.opcode == FORGET {
      var slot := Lookup(env.slots, now.argument);
      if slot.None? {
        halt := Some(Malformed);
      } else {
        StepLogs(kernel.Model(), slot.value, NO_FACT);
        var id := kernel.Forget(slot.value);
        appended := [kernel.log[id]];
      }
    } else if now.opcode == EXPECT_OBJECT {
      halt, expectations' := CheckExpectation(kernel, env, now, expectations);
    }
  }

  const NO_FACT: Fact := Fact(Entity(0), [], Entity(0))

  /** Defining and forgetting append one record each. */
  lemma StepLogs(s: State, slot: Name, fact: Fact)
    requires Inv(s)
    ensures var log := AfterDefine(s, slot, fact).log; |log| == |s.log| + 1 && log == s.log + [log[|s.log|]]
    ensures var log := AfterForget(s, slot).log; |log| == |s.log| + 1 && log == s.log + [log[|s.log|]]
  {
  }

  lemma KernelIsSound(kernel: LegacyKernel.Kernel)
    requires kernel.Valid()
    ensures Inv(kernel.Model())
  {
  }

  method CheckExpectation(kernel: LegacyKernel.Kernel, env: Env, now: Instruction, expectations: nat)
    returns (halt: Option<Halt>, expectations': nat)
    requires kernel.Valid()
    ensures Inv(MachineOf(kernel).store)
    ensures forall locals, stack, i: nat ::
      StepExpect(env, now, Vm(MachineOf(kernel), locals, stack, expectations), i)
      == match halt case None => Go(Vm(MachineOf(kernel), locals, stack, expectations'), i + 1)
                    case Some(h) => Stop(Vm(MachineOf(kernel), locals, stack, expectations'), h)
  {
    hide LegacyKernel.Kernel.Indexed, Lookup, Meets, StackAt;
    KernelIsSound(kernel);
    halt, expectations' := None, expectations;
    var slot := Lookup(env.slots, now.argument);
    if slot.None? {
      halt := Some(Malformed);
      return;
    }
    expectations' := expectations + 1;
    ResolvedIsTop(kernel.Model(), slot.value);
    var fact := kernel.Resolve(slot.value);
    if fact.None? {
      halt := Some(Violation(slot.value, true));
    } else if !Meets(env, fact.value.target, now.immediate) {
      halt := Some(Violation(slot.value, false));
    }
  }

  lemma ResolvedIsTop(s: State, slot: Name)
    requires Inv(s)
    ensures Resolved(s, slot) == ResolveIn(StacksOf(s), slot)
  {
    if slot in s.head {
      TopIsHead(s, slot);
    }
  }

  /** Run a frame and return the records it appended, in order. A run that halts raises instead of returning them. */
  method ExecuteIsaFrame(kernel: LegacyKernel.Kernel, frame: StreamFrame)
    returns (halt: Option<Halt>, expectations: nat, records: seq<Record>)
    requires kernel.Valid()
    modifies kernel
    ensures kernel.Valid() && kernel.log == old(kernel.log) + records
    ensures Inv(old(MachineOf(kernel)).store)
    ensures var run := RunFrame(old(MachineOf(kernel)), frame);
      && run.vm.machine == MachineOf(kernel) && run.vm.expectations == expectations
      && halt == if run.Finished? then None else Some(run.halt)
  {
    hide LegacyKernel.Kernel.Valid, Inv, StepAt, DictItems;
    KernelIsSound(kernel);
    var slots := ReadDict(frame.dictionary.slots);
    var predicates := ReadDict(frame.dictionary.predicates);
    var literals := ReadDict(frame.dictionary.literals);
    var env, code := Env(slots, predicates, literals), frame.instructions;
    var locals: seq<Value> := seq(frame.localCount + EXTRA_LOCALS, _ => Nothing);
    var stack: seq<Value> := [];
    halt, expectations, records := None, 0, [];
    var i := 0;
    ghost var goal := RunFrame(MachineOf(kernel), frame);
    assert locals == StartVm(MachineOf(kernel), frame).locals;
    while i < |code|
      invariant kernel.Valid() && i <= |code| && halt.None? && Inv(MachineOf(kernel).store)
      invariant kernel.log == old(kernel.log) + records
      invariant RunFrom(env, code, Vm(MachineOf(kernel), locals, stack, expectations), i) == goal
      decreases |code| - i
    {
      var appended;
      halt, i, locals, stack, expectations, appended := ExecuteStep(kernel, env, code, i, locals, stack, expectations);
      records := records + appended;
      if halt.Some? {
        return;
      }
      KernelIsSound(kernel);
    }
  }
}
