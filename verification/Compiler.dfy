/** The transaction compiler: calls become stack code with a dictionary, and running that code does to the kernel
    what the calls themselves would do. */
module Compiler {
  import opened Words
  import opened Facts
  import opened Store
  import opened Isa
  import opened Interpreter
  import C = Calls
  import LegacyKernel

  // ---- The source language ----

  datatype AtomRef = EntityRef(id: nat) | TempRef(index: nat) | LiteralRef(text: Name)

  datatype Call =
    | Allocate
    | Define(slot: Name, subject: AtomRef, relation: Name, target: AtomRef)
    | Forget(slot: Name)
    | ExpectObject(slot: Name, expected: AtomRef)

  /** Temporaries are allocated in this builder before they are used, and are not expected as objects. */
  predicate RefFits(ref: AtomRef, temps: nat) {
    (ref.TempRef? ==> ref.index < temps) && (ref.EntityRef? ==> ref.id < LITERAL_BASE)
  }

  predicate CallFits(call: Call, temps: nat) {
    match call
    case Define(_, subject, _, target) => RefFits(subject, temps) && RefFits(target, temps)
    case ExpectObject(_, expected) => !expected.TempRef? && RefFits(expected, temps) && (expected.EntityRef? ==> expected.id > 0)
    case _ => true
  }

  function AllocatedBy(call: Call): nat { if call.Allocate? then 1 else 0 }

  predicate WellFormed(calls: seq<Call>, temps: nat)
    decreases |calls|
  {
    calls == [] || (CallFits(calls[0], temps) && WellFormed(calls[1..], temps + AllocatedBy(calls[0])))
  }

  function Allocations(calls: seq<Call>): nat {
    if calls == [] then 0 else AllocatedBy(calls[0]) + Allocations(calls[1..])
  }

  // ---- What the calls mean ----

  datatype Direct = Direct(machine: C.Machine, temps: seq<nat>, expectations: nat)

  datatype Meaning = Done(state: Direct) | Failed(state: Direct, slot: Name, empty: bool)

  function DirectAtom(temps: seq<nat>, ref: AtomRef): Atom
    requires ref.TempRef? ==> ref.index < |temps|
  {
    match ref
    case EntityRef(id) => Entity(id)
    case TempRef(index) => Entity(temps[index])
    case LiteralRef(text) => Literal(text)
  }

  function DirectCall(s: Direct, call: Call): (r: Meaning)
    requires Inv(s.machine.store) && CallFits(call, |s.temps|)
    ensures Inv(r.state.machine.store)
    ensures r.Done? ==> |r.state.temps| == |s.temps| + AllocatedBy(call)
  {
    match call
    case Allocate => Done(s.(machine := C.After(s.machine, C.NewEntity), temps := s.temps + [s.machine.nextEntity]))
    case Define(slot, subject, relation, target) =>
      var fact := Fact(DirectAtom(s.temps, subject), relation, DirectAtom(s.temps, target));
      Done(s.(machine := C.After(s.machine, C.Define(slot, fact))))
    case Forget(slot) => Done(s.(machine := C.After(s.machine, C.Forget(slot))))
    case ExpectObject(slot, expected) =>
      var after := s.(expectations := s.expectations + 1);
      match Resolved(s.machine.store, slot)
      case None => Failed(after, slot, true)
      case Some(fact) => if fact.target == DirectAtom(s.temps, expected) then Done(after) else Failed(after, slot, false)
  }

  function DirectAll(s: Direct, calls: seq<Call>): (r: Meaning)
    requires Inv(s.machine.store) && WellFormed(calls, |s.temps|)
    decreases |calls|
  {
    if calls == [] then Done(s)
    else match DirectCall(s, calls[0])
      case Failed(after, slot, empty) => Failed(after, slot, empty)
      case Done(after) => DirectAll(after, calls[1..])
  }

  // ---- The compiler's tables and code ----

  function Intern(names: seq<Name>, name: Name): seq<Name> {
    if name in names then names else names + [name]
  }

  /** The place of a name, or the next free one. */
  function PlaceOf(names: seq<Name>, name: Name): (i: nat)
    ensures i <= |names|
    ensures name in names ==> i < |names| && names[i] == name
    ensures name !in names ==> i == |names|
  {
    if names == [] then 0 else if names[0] == name then 0 else 1 + PlaceOf(names[1..], name)
  }

  datatype Draft = Draft(nextLocal: nat, slots: seq<Name>, predicates: seq<Name>, literals: seq<Name>, code: seq<Instruction>)

  const NEW_DRAFT: Draft := Draft(0, [], [], [], [])

  function Emit(d: Draft, opcode: byte, argument: nat, immediate: nat): Draft {
    d.(code := d.code + [Instruction(opcode, argument, immediate)])
  }

  function PushAtom(d: Draft, ref: AtomRef): Draft {
    match ref
    case EntityRef(id) => Emit(d, PUSH_CELL, 0, id)
    case TempRef(index) => Emit(d, LOAD_LOCAL, index, 0)
    case LiteralRef(text) =>
      Emit(d.(literals := Intern(d.literals, text)), PUSH_CELL, 0, LITERAL_BASE + PlaceOf(d.literals, text))
  }

  function CompileDefine(d: Draft, slot: Name, subject: AtomRef, relation: Name, target: AtomRef): Draft {
    var d0 := d.(slots := Intern(d.slots, slot));
    var d1 := PushAtom(d0, subject);
    var d2 := Emit(d1.(predicates := Intern(d1.predicates, relation)), PUSH_CELL, 0, PlaceOf(d1.predicates, relation));
    var d3 := PushAtom(d2, target);
    Emit(d3, DEFINE, PlaceOf(d.slots, slot), 0)
  }

  function CompileCall(d: Draft, call: Call): Draft
    requires call.ExpectObject? ==> !call.expected.TempRef?
  {
    match call
    case Allocate => Emit(Emit(d.(nextLocal := d.nextLocal + 1), ALLOCATE, 0, 0), STORE_LOCAL, d.nextLocal, 0)
    case Define(slot, subject, relation, target) => CompileDefine(d, slot, subject, relation, target)
    case Forget(slot) => Emit(d.(slots := Intern(d.slots, slot)), FORGET, PlaceOf(d.slots, slot), 0)
    case ExpectObject(slot, expected) =>
      var token := PlaceOf(d.slots, slot);
      var d0 := d.(slots := Intern(d.slots, slot));
      match expected
      case EntityRef(id) => Emit(d0, EXPECT_OBJECT, token, id)
      case LiteralRef(text) =>
        Emit(d0.(literals := Intern(d.literals, text)), EXPECT_OBJECT, token, LITERAL_BASE + PlaceOf(d.literals, text))
  }

  function CompileAll(d: Draft, calls: seq<Call>, temps: nat): Draft
    requires WellFormed(calls, temps)
    decreases |calls|
  {
    if calls == [] then d else CompileAll(CompileCall(d, calls[0]), calls[1..], temps + AllocatedBy(calls[0]))
  }

  function Numbered(base: nat, names: seq<Name>): (r: seq<DictEntry>)
    ensures |r| == |names| && forall i :: 0 <= i < |r| ==> r[i] == (base + i, names[i])
  {
    seq(|names|, i requires 0 <= i < |names| => (base + i, names[i]))
  }

  function FrameOf(d: Draft, namespace: nat): StreamFrame {
    StreamFrame(ISA_VERSION, namespace, Dictionary(Numbered(0, d.slots), Numbered(0, d.predicates), Numbered(LITERAL_BASE, d.literals)),
                d.nextLocal, d.code)
  }

  // ---- Dictionaries of numbered names ----

  ghost predicate Distinct(names: seq<Name>) {
    forall i, j :: 0 <= i < j < |names| ==> names[i] != names[j]
  }

  lemma {:induction false} PutNew(items: seq<DictEntry>, e: DictEntry)
    requires forall i :: 0 <= i < |items| ==> items[i].0 != e.0
    ensures Put(items, e) == items + [e]
    decreases |items|
  {
    if items != [] {
      PutNew(items[1..], e);
      assert items == [items[0]] + items[1..];
    }
  }

  lemma {:induction false} NumberedItems(base: nat, names: seq<Name>)
    ensures DictItems(Numbered(base, names)) == Numbered(base, names)
    decreases |names|
  {
    if names != [] {
      var front := names[..|names| - 1];
      assert Numbered(base, names)[..|names| - 1] == Numbered(base, front);
      NumberedItems(base, front);
      PutNew(Numbered(base, front), (base + |front|, names[|front|]));
    }
  }

  lemma {:induction false} LookupNumbered(base: nat, names: seq<Name>, key: nat)
    ensures Lookup(Numbered(base, names), key) == if base <= key < base + |names| then Some(names[key - base]) else None
    decreases |names|
  {
    if names != [] {
      assert Numbered(base, names)[1..] == Numbered(base + 1, names[1..]);
      LookupNumbered(base + 1, names[1..], key);
    }
  }

  lemma {:induction false} CellOfNumbered(base: nat, names: seq<Name>, name: Name)
    ensures CellOf(Numbered(base, names), name) == if name in names then base + PlaceOf(names, name) else 0
    decreases |names|
  {
    if names != [] {
      assert Numbered(base, names)[1..] == Numbered(base + 1, names[1..]);
      CellOfNumbered(base + 1, names[1..], name);
      assert names == [names[0]] + names[1..];
    }
  }

  function EnvFor(d: Draft): Env {
    Env(Numbered(0, d.slots), Numbered(0, d.predicates), Numbered(LITERAL_BASE, d.literals))
  }

  lemma FrameEnv(d: Draft, namespace: nat)
    ensures EnvOf(FrameOf(d, namespace).dictionary) == EnvFor(d)
  {
    NumberedItems(0, d.slots);
    NumberedItems(0, d.predicates);
    NumberedItems(LITERAL_BASE, d.literals);
  }

  lemma {:induction false} PlaceIsStable(names: seq<Name>, more: seq<Name>, name: Name)
    requires names <= more && name in names
    ensures PlaceOf(more, name) == PlaceOf(names, name)
    decreases |names|
  {
    assert names == [names[0]] + names[1..] && names[0] == more[0];
    if names[0] != name {
      assert name in names[1..] && names[1..] <= more[1..];
      PlaceIsStable(names[1..], more[1..], name);
    }
  }

  // ---- Expectations and cells, exactly ----

  /** An entity expectation is judged as meant, except that 0 passes for any literal outside the dictionary, and a
      number from 2^63 on passes for the literal in that cell. */
  lemma EntityExpectation(d: Draft, id: nat, actual: Atom)
    requires Distinct(d.literals)
    ensures (Meets(EnvFor(d), actual, id) <==> actual == Entity(id))
       <==> !(actual.Literal? && id == if actual.text in d.literals then LITERAL_BASE + PlaceOf(d.literals, actual.text) else 0)
  {
    if actual.Literal? {
      CellOfNumbered(LITERAL_BASE, d.literals, actual.text);
      LookupNumbered(LITERAL_BASE, d.literals, id);
    }
  }

  /** A literal expectation is judged as meant, except that an entity whose id is the literal's cell passes for it. */
  lemma LiteralExpectation(d: Draft, text: Name, actual: Atom)
    requires text in d.literals && Distinct(d.literals)
    ensures var cell := LITERAL_BASE + PlaceOf(d.literals, text);
      (Meets(EnvFor(d), actual, cell) <==> actual == Literal(text)) <==> actual != Entity(cell)
  {
    var cell := LITERAL_BASE + PlaceOf(d.literals, text);
    LookupNumbered(LITERAL_BASE, d.literals, cell);
    if actual.Literal? {
      CellOfNumbered(LITERAL_BASE, d.literals, actual.text);
    }
  }

  /** A pushed entity is read back as that entity exactly when its id is below the literal cells. */
  lemma PushedEntity(d: Draft, id: nat)
    ensures AtomOf(EnvFor(d), CellValue(id)) == Some(Entity(id)) <==> id < LITERAL_BASE
  {
  }

  // ---- Compiling only adds ----

  /** One stage of a compilation, seen from its end: its tables and code are prefixes of the final ones. */
  ghost predicate Within(d: Draft, final: Draft) {
    && d.nextLocal <= final.nextLocal && d.slots <= final.slots && d.predicates <= final.predicates
    && d.literals <= final.literals && d.code <= final.code
  }

  ghost predicate Tidy(d: Draft) {
    Distinct(d.slots) && Distinct(d.predicates) && Distinct(d.literals)
  }

  lemma WithinTransitive(a: Draft, b: Draft, c: Draft)
    requires Within(a, b) && Within(b, c)
    ensures Within(a, c)
  {
  }

  lemma CompileGrows(d: Draft, call: Call)
    requires Tidy(d) && (call.ExpectObject? ==> !call.expected.TempRef?)
    ensures Tidy(CompileCall(d, call)) && Within(d, CompileCall(d, call))
    ensures CompileCall(d, call).nextLocal == d.nextLocal + AllocatedBy(call)
  {
    if call.Define? {
      DefineStages(d, call.slot, call.subject, call.relation, call.target);
    }
  }

  lemma PushGrows(d: Draft, ref: AtomRef)
    requires Tidy(d)
    ensures Tidy(PushAtom(d, ref)) && Within(d, PushAtom(d, ref)) && PushAtom(d, ref).nextLocal == d.nextLocal
    ensures PushAtom(d, ref).slots == d.slots && PushAtom(d, ref).predicates == d.predicates
  {
  }

  /** The drafts a definition goes through, from first to last. */
  function Stage(d: Draft, slot: Name, subject: AtomRef, relation: Name, target: AtomRef, k: nat): Draft {
    if k == 0 then d.(slots := Intern(d.slots, slot))
    else if k == 1 then PushAtom(Stage(d, slot, subject, relation, target, 0), subject)
    else if k == 2 then
      var d1 := Stage(d, slot, subject, relation, target, 1);
      Emit(d1.(predicates := Intern(d1.predicates, relation)), PUSH_CELL, 0, PlaceOf(d1.predicates, relation))
    else if k == 3 then PushAtom(Stage(d, slot, subject, relation, target, 2), target)
    else Emit(Stage(d, slot, subject, relation, target, 3), DEFINE, PlaceOf(d.slots, slot), 0)
  }

  lemma DefineStages(d: Draft, slot: Name, subject: AtomRef, relation: Name, target: AtomRef)
    requires Tidy(d)
    ensures CompileDefine(d, slot, subject, relation, target) == Stage(d, slot, subject, relation, target, 4)
    ensures Within(d, Stage(d, slot, subject, relation, target, 0))
    ensures Tidy(Stage(d, slot, subject, relation, target, 0))
    ensures forall k :: 0 <= k < 4 ==>
      Within(Stage(d, slot, subject, relation, target, k), Stage(d, slot, subject, relation, target, k + 1))
    ensures Within(d, Stage(d, slot, subject, relation, target, 4))
    ensures Tidy(Stage(d, slot, subject, relation, target, 4))
    ensures Stage(d, slot, subject, relation, target, 4).nextLocal == d.nextLocal
  {
    hide PushAtom;
    var d0, d1 := Stage(d, slot, subject, relation, target, 0), Stage(d, slot, subject, relation, target, 1);
    var d2, d3 := Stage(d, slot, subject, relation, target, 2), Stage(d, slot, subject, relation, target, 3);
    var d4 := Stage(d, slot, subject, relation, target, 4);
    PushGrows(d0, subject);
    PushGrows(d2, target);
    assert Within(d, d0) && Within(d0, d1) && Within(d1, d2) && Within(d2, d3) && Within(d3, d4);
    WithinTransitive(d, d0, d1);
    WithinTransitive(d, d1, d2);
    WithinTransitive(d, d2, d3);
    WithinTransitive(d, d3, d4);
  }

  lemma {:induction false} CompileAllGrows(d: Draft, calls: seq<Call>, temps: nat)
    requires Tidy(d) && WellFormed(calls, temps)
    ensures Tidy(CompileAll(d, calls, temps)) && Within(d, CompileAll(d, calls, temps))
    decreases |calls|
  {
    if calls != [] {
      hide CompileCall, Tidy;
      CompileGrows(d, calls[0]);
      var next, later := CompileCall(d, calls[0]), temps + AllocatedBy(calls[0]);
      CompileAllGrows(next, calls[1..], later);
      WithinTransitive(d, next, CompileAll(next, calls[1..], later));
    }
  }

  // ---- Simulation ----

  /** No object on record, active or not, is an entity whose id looks like a literal cell. */
  ghost predicate Small(s: State) {
    forall i :: 0 <= i < |s.log| && s.log[i].fact.Some? && s.log[i].fact.value.target.Entity? ==>
      s.log[i].fact.value.target.id < LITERAL_BASE
  }

  ghost predicate Bounded(s: Direct, allocations: nat) {
    && Small(s.machine.store) && s.machine.nextEntity + allocations <= LITERAL_BASE
    && forall i :: 0 <= i < |s.temps| ==> s.temps[i] < LITERAL_BASE
  }

  ghost predicate LocalsMatch(temps: seq<nat>, locals: seq<Value>) {
    |temps| <= |locals| && forall i :: 0 <= i < |temps| ==> locals[i] == EntityValue(temps[i])
  }

  ghost predicate Related(d: Draft, s: Direct, vm: Vm, final: Draft) {
    && vm.machine == s.machine && vm.stack == [] && vm.expectations == s.expectations
    && |s.temps| == d.nextLocal && |vm.locals| == final.nextLocal + EXTRA_LOCALS && LocalsMatch(s.temps, vm.locals)
  }

  function ValueOf(final: Draft, temps: seq<nat>, ref: AtomRef): Value
    requires ref.TempRef? ==> ref.index < |temps|
  {
    match ref
    case EntityRef(id) => CellValue(id)
    case TempRef(index) => EntityValue(temps[index])
    case LiteralRef(text) => CellValue(LITERAL_BASE + PlaceOf(final.literals, text))
  }

  lemma InternedPlace(names: seq<Name>, final: seq<Name>, name: Name)
    requires Intern(names, name) <= final
    ensures name in final && PlaceOf(names, name) == PlaceOf(final, name) < |final|
    ensures final[PlaceOf(final, name)] == name
  {
    var more := Intern(names, name);
    assert name in more by {
      if name !in names {
        assert more[|names|] == name;
      }
    }
    PlaceIsStable(more, final, name);
    if name in names {
      PlaceIsStable(names, more, name);
    } else {
      FreshPlace(names, name);
    }
    assert final[PlaceOf(more, name)] == name;
  }

  lemma {:induction false} FreshPlace(names: seq<Name>, name: Name)
    requires name !in names
    ensures PlaceOf(names + [name], name) == |names|
    decreases |names|
  {
    if names != [] {
      assert (names + [name])[1..] == names[1..] + [name];
      FreshPlace(names[1..], name);
    }
  }

  /** Pushing an operand leaves on the stack a value that stands for it. */
  lemma PushRuns(d: Draft, ref: AtomRef, final: Draft, temps: seq<nat>, vm: Vm)
    requires Within(PushAtom(d, ref), final) && RefFits(ref, |temps|) && LocalsMatch(temps, vm.locals)
    requires Inv(vm.machine.store)
    ensures |d.code| < |final.code| && PushAtom(d, ref).code == d.code + [final.code[|d.code|]]
    ensures StepAt(EnvFor(final), final.code, vm, |d.code|) == Go(Pushed(vm, ValueOf(final, temps, ref)), |d.code| + 1)
    ensures AtomOf(EnvFor(final), ValueOf(final, temps, ref)) == Some(DirectAtom(temps, ref))
  {
    hide Inv, Lookup, PlaceOf, StepAllocate, StepDefine, StepExpect;
    var i := |d.code|;
    assert PushAtom(d, ref).code[i] == final.code[i];
    if ref.LiteralRef? {
      InternedPlace(d.literals, final.literals, ref.text);
      LookupNumbered(LITERAL_BASE, final.literals, LITERAL_BASE + PlaceOf(final.literals, ref.text));
    }
  }

  lemma OneStep(env: Env, code: seq<Instruction>, vm: Vm, i: nat, after: Vm, next: nat)
    requires i < |code| && Inv(vm.machine.store) && StepAt(env, code, vm, i) == Go(after, next)
    ensures next <= |code| && Inv(after.machine.store)
    ensures RunFrom(env, code, vm, i) == RunFrom(env, code, after, next)
  {
    hide Inv, StepAt;
  }

  lemma LastStep(env: Env, code: seq<Instruction>, vm: Vm, i: nat, after: Vm, halt: Halt)
    requires i < |code| && Inv(vm.machine.store) && StepAt(env, code, vm, i) == Stop(after, halt)
    ensures RunFrom(env, code, vm, i) == Halted(after, halt)
  {
    hide Inv, StepAt;
  }

  lemma AllocateRuns(d: Draft, final: Draft, s: Direct, vm: Vm)
    requires Within(CompileCall(d, Allocate), final) && Related(d, s, vm, final) && Inv(s.machine.store)
    ensures var after := DirectCall(s, Allocate).state;
      var vm' := vm.(machine := after.machine, locals := vm.locals[d.nextLocal := EntityValue(s.machine.nextEntity)]);
      && |d.code| + 2 <= |final.code|
      && RunFrom(EnvFor(final), final.code, vm, |d.code|) == RunFrom(EnvFor(final), final.code, vm', |d.code| + 2)
      && |CompileCall(d, Allocate).code| == |d.code| + 2 && Related(CompileCall(d, Allocate), after, vm', final)
  {
    hide Inv, Lookup, StepDefine, StepExpect;
    var i, compiled := |d.code|, CompileCall(d, Allocate).code;
    assert compiled[i] == final.code[i] && compiled[i + 1] == final.code[i + 1];
    var after := DirectCall(s, Allocate).state;
    var vm' := vm.(machine := after.machine, locals := vm.locals[d.nextLocal := EntityValue(s.machine.nextEntity)]);
    OneStep(EnvFor(final), final.code, vm, i, vm', i + 2);
  }

  lemma ForgetRuns(d: Draft, slot: Name, final: Draft, s: Direct, vm: Vm)
    requires Within(CompileCall(d, Forget(slot)), final) && Related(d, s, vm, final) && Inv(s.machine.store)
    ensures var after := DirectCall(s, Forget(slot)).state;
      var vm' := vm.(machine := after.machine);
      && |d.code| + 1 <= |final.code|
      && RunFrom(EnvFor(final), final.code, vm, |d.code|) == RunFrom(EnvFor(final), final.code, vm', |d.code| + 1)
      && |CompileCall(d, Forget(slot)).code| == |d.code| + 1 && Related(CompileCall(d, Forget(slot)), after, vm', final)
  {
    hide Inv, Lookup, StepDefine, StepExpect, StepAllocate, PlaceOf;
    var i, compiled := |d.code|, CompileCall(d, Forget(slot)).code;
    assert compiled[i] == final.code[i];
    InternedPlace(d.slots, final.slots, slot);
    LookupNumbered(0, final.slots, PlaceOf(final.slots, slot));
    var vm' := vm.(machine := DirectCall(s, Forget(slot)).state.machine);
    OneStep(EnvFor(final), final.code, vm, i, vm', i + 1);
  }

  /** The three operands of a definition, as they lie on the stack. */
  function Operands(final: Draft, temps: seq<nat>, subject: AtomRef, relation: Name, target: AtomRef): seq<Value>
    requires RefFits(subject, |temps|) && RefFits(target, |temps|)
  {
    [ValueOf(final, temps, subject), CellValue(PlaceOf(final.predicates, relation)), ValueOf(final, temps, target)]
  }

  lemma PredicateRuns(d1: Draft, relation: Name, final: Draft, vm: Vm)
    requires Within(Emit(d1.(predicates := Intern(d1.predicates, relation)), PUSH_CELL, 0, PlaceOf(d1.predicates, relation)), final)
    requires Inv(vm.machine.store)
    ensures |d1.code| < |final.code|
    ensures StepAt(EnvFor(final), final.code, vm, |d1.code|) == Go(Pushed(vm, CellValue(PlaceOf(final.predicates, relation))), |d1.code| + 1)
    ensures PredicateOf(EnvFor(final), CellValue(PlaceOf(final.predicates, relation))) == relation
  {
    hide Inv, Lookup, PlaceOf, StepAllocate, StepDefine, StepExpect;
    var d2 := Emit(d1.(predicates := Intern(d1.predicates, relation)), PUSH_CELL, 0, PlaceOf(d1.predicates, relation));
    assert d2.code[|d1.code|] == final.code[|d1.code|];
    InternedPlace(d1.predicates, final.predicates, relation);
    LookupNumbered(0, final.predicates, PlaceOf(final.predicates, relation));
  }

  /** After its operands, the machine is ready for a definition. */
  lemma OperandsRun(d: Draft, slot: Name, subject: AtomRef, relation: Name, target: AtomRef, final: Draft,
                    temps: seq<nat>, vm: Vm)
    requires Tidy(d) && Within(CompileDefine(d, slot, subject, relation, target), final)
    requires RefFits(subject, |temps|) && RefFits(target, |temps|)
    requires vm.stack == [] && LocalsMatch(temps, vm.locals) && Inv(vm.machine.store)
    ensures |d.code| + 4 <= |final.code| && |CompileDefine(d, slot, subject, relation, target).code| == |d.code| + 4
    ensures final.code[|d.code| + 3] == Instruction(DEFINE, PlaceOf(final.slots, slot), 0)
    ensures slot in final.slots
    ensures RunFrom(EnvFor(final), final.code, vm, |d.code|)
         == RunFrom(EnvFor(final), final.code, vm.(stack := Operands(final, temps, subject, relation, target)), |d.code| + 3)
  {
    hide Inv, StepAt, PushAtom, PlaceOf, AtomOf, PredicateOf, RunFrom, CompileDefine;
    DefineStages(d, slot, subject, relation, target);
    var d0, d1 := Stage(d, slot, subject, relation, target, 0), Stage(d, slot, subject, relation, target, 1);
    var d2, d3 := Stage(d, slot, subject, relation, target, 2), Stage(d, slot, subject, relation, target, 3);
    var d4 := Stage(d, slot, subject, relation, target, 4);
    WithinTransitive(d3, d4, final);
    WithinTransitive(d2, d3, final);
    WithinTransitive(d1, d2, final);
    WithinTransitive(d0, d1, final);
    var env, i := EnvFor(final), |d.code|;
    var v1 := Pushed(vm, ValueOf(final, temps, subject));
    PushRuns(d0, subject, final, temps, vm);
    OneStep(env, final.code, vm, i, v1, i + 1);
    var v2 := Pushed(v1, CellValue(PlaceOf(final.predicates, relation)));
    PredicateRuns(d1, relation, final, v1);
    OneStep(env, final.code, v1, i + 1, v2, i + 2);
    var v3 := Pushed(v2, ValueOf(final, temps, target));
    PushRuns(d2, target, final, temps, v2);
    OneStep(env, final.code, v2, i + 2, v3, i + 3);
    assert v3 == vm.(stack := Operands(final, temps, subject, relation, target));
    assert d4.code[i + 3] == final.code[i + 3];
    InternedPlace(d.slots, final.slots, slot);
  }

  lemma DefineStep(final: Draft, slot: Name, subject: AtomRef, relation: Name, target: AtomRef, temps: seq<nat>,
                   vm: Vm, i: nat)
    requires RefFits(subject, |temps|) && RefFits(target, |temps|) && Inv(vm.machine.store) && slot in final.slots
    requires subject.LiteralRef? ==> subject.text in final.literals
    requires target.LiteralRef? ==> target.text in final.literals
    requires relation in final.predicates
    requires i < |final.code| && final.code[i] == Instruction(DEFINE, PlaceOf(final.slots, slot), 0)
    requires vm.stack == Operands(final, temps, subject, relation, target)
    ensures StepAt(EnvFor(final), final.code, vm, i)
         == Go(vm.(stack := [], machine := C.After(vm.machine, C.Define(slot, Fact(DirectAtom(temps, subject), relation, DirectAtom(temps, target))))), i + 1)
  {
    hide Inv, Lookup, PlaceOf, StepAllocate, StepExpect;
    LookupNumbered(0, final.slots, PlaceOf(final.slots, slot));
    LookupNumbered(0, final.predicates, PlaceOf(final.predicates, relation));
    if subject.LiteralRef? {
      LookupNumbered(LITERAL_BASE, final.literals, LITERAL_BASE + PlaceOf(final.literals, subject.text));
    }
    if target.LiteralRef? {
      LookupNumbered(LITERAL_BASE, final.literals, LITERAL_BASE + PlaceOf(final.literals, target.text));
    }
  }

  lemma DefineNames(d: Draft, slot: Name, subject: AtomRef, relation: Name, target: AtomRef, final: Draft)
    requires Tidy(d) && Within(CompileDefine(d, slot, subject, relation, target), final)
    ensures subject.LiteralRef? ==> subject.text in final.literals
    ensures target.LiteralRef? ==> target.text in final.literals
    ensures relation in final.predicates
  {
    DefineStages(d, slot, subject, relation, target);
    var d0, d1 := Stage(d, slot, subject, relation, target, 0), Stage(d, slot, subject, relation, target, 1);
    var d2, d3 := Stage(d, slot, subject, relation, target, 2), Stage(d, slot, subject, relation, target, 3);
    var d4 := Stage(d, slot, subject, relation, target, 4);
    WithinTransitive(d3, d4, final);
    WithinTransitive(d2, d3, final);
    WithinTransitive(d1, d2, final);
    hide Tidy;
    InternedPlace(d1.predicates, final.predicates, relation);
    if subject.LiteralRef? {
      InternedPlace(d0.literals, final.literals, subject.text);
    }
    if target.LiteralRef? {
      InternedPlace(d2.literals, final.literals, target.text);
    }
  }

  lemma DefineRuns(d: Draft, call: Call, final: Draft, s: Direct, vm: Vm)
    requires call.Define? && CallFits(call, |s.temps|)
    requires Tidy(d) && Within(CompileCall(d, call), final) && Related(d, s, vm, final) && Inv(s.machine.store)
    ensures var after := DirectCall(s, call).state;
      var vm' := vm.(machine := after.machine);
      && |d.code| + 4 <= |final.code|
      && RunFrom(EnvFor(final), final.code, vm, |d.code|) == RunFrom(EnvFor(final), final.code, vm', |d.code| + 4)
      && |CompileCall(d, call).code| == |d.code| + 4 && Related(CompileCall(d, call), after, vm', final)
  {
    hide Inv, StepAt, PlaceOf, RunFrom, CompileDefine, PushAtom;
    var Define(slot, subject, relation, target) := call;
    DefineStages(d, slot, subject, relation, target);
    OperandsRun(d, slot, subject, relation, target, final, s.temps, vm);
    DefineNames(d, slot, subject, relation, target, final);
    var ready := vm.(stack := Operands(final, s.temps, subject, relation, target));
    DefineStep(final, slot, subject, relation, target, s.temps, ready, |d.code| + 3);
    var vm' := vm.(machine := DirectCall(s, call).state.machine);
    OneStep(EnvFor(final), final.code, ready, |d.code| + 3, vm', |d.code| + 4);
  }

  // ---- Expectations ----

  lemma ResolvedIsSmall(s: State, slot: Name)
    requires Inv(s) && Small(s)
    ensures Resolved(s, slot).Some? && Resolved(s, slot).value.target.Entity? ==>
      Resolved(s, slot).value.target.id < LITERAL_BASE
  {
    if slot in s.head {
      assert IsDefinition(s.log, s.head[slot], slot);
    }
  }

  /** The number an expectation is compiled to. */
  function ExpectedCell(final: Draft, expected: AtomRef): nat {
    match expected
    case EntityRef(id) => id
    case LiteralRef(text) => LITERAL_BASE + PlaceOf(final.literals, text)
    case TempRef(index) => index
  }

  lemma ExpectationIsMeant(final: Draft, expected: AtomRef, temps: seq<nat>, actual: Atom)
    requires Tidy(final) && !expected.TempRef? && RefFits(expected, |temps|)
    requires (expected.EntityRef? ==> expected.id > 0)
    requires expected.LiteralRef? ==> expected.text in final.literals
    requires actual.Entity? ==> actual.id < LITERAL_BASE
    ensures Meets(EnvFor(final), actual, ExpectedCell(final, expected)) <==> actual == DirectAtom(temps, expected)
  {
    hide Meets, PlaceOf;
    match expected
    case EntityRef(id) => EntityExpectation(final, id, actual);
    case LiteralRef(text) => LiteralExpectation(final, text, actual);
  }

  lemma ExpectCode(d: Draft, slot: Name, expected: AtomRef, final: Draft)
    requires !expected.TempRef? && Within(CompileCall(d, ExpectObject(slot, expected)), final)
    ensures |CompileCall(d, ExpectObject(slot, expected)).code| == |d.code| + 1 <= |final.code|
    ensures final.code[|d.code|] == Instruction(EXPECT_OBJECT, PlaceOf(final.slots, slot), ExpectedCell(final, expected))
    ensures slot in final.slots && (expected.LiteralRef? ==> expected.text in final.literals)
  {
    hide PlaceOf;
    var d1 := CompileCall(d, ExpectObject(slot, expected));
    assert d1.code[|d.code|] == final.code[|d.code|];
    InternedPlace(d.slots, final.slots, slot);
    if expected.LiteralRef? {
      InternedPlace(d.literals, final.literals, expected.text);
    }
  }

  /** The run goes on behind a call that is done, and halts at one that fails. */
  function Continued(final: Draft, meaning: Meaning, vm: Vm, i: nat): Run
    requires Inv(vm.machine.store) && i <= |final.code|
  {
    match meaning
    case Done(_) => RunFrom(EnvFor(final), final.code, vm, i)
    case Failed(_, slot, empty) => Halted(vm, Violation(slot, empty))
  }

  lemma ExpectRuns(d: Draft, slot: Name, expected: AtomRef, final: Draft, s: Direct, vm: Vm)
    requires CallFits(ExpectObject(slot, expected), |s.temps|) && Small(s.machine.store) && Tidy(final)
    requires Within(CompileCall(d, ExpectObject(slot, expected)), final) && Related(d, s, vm, final)
    requires Inv(s.machine.store)
    ensures var meaning := DirectCall(s, ExpectObject(slot, expected));
      var vm' := vm.(expectations := vm.expectations + 1);
      && |d.code| + 1 <= |final.code|
      && RunFrom(EnvFor(final), final.code, vm, |d.code|) == Continued(final, meaning, vm', |d.code| + 1)
      && |CompileCall(d, ExpectObject(slot, expected)).code| == |d.code| + 1
      && Related(CompileCall(d, ExpectObject(slot, expected)), meaning.state, vm', final)
  {
    hide Inv, Lookup, Meets, PlaceOf, Resolved, StepAllocate, StepDefine, RunFrom, Within, Small;
    ExpectCode(d, slot, expected, final);
    LookupNumbered(0, final.slots, PlaceOf(final.slots, slot));
    ResolvedIsSmall(s.machine.store, slot);
    var env, i := EnvFor(final), |d.code|;
    var vm' := vm.(expectations := vm.expectations + 1);
    var actual := Resolved(s.machine.store, slot);
    if actual.Some? {
      ExpectationIsMeant(final, expected, s.temps, actual.value.target);
    }
    match DirectCall(s, ExpectObject(slot, expected))
    case Done(_) => OneStep(env, final.code, vm, i, vm', i + 1);
    case Failed(_, _, empty) => LastStep(env, final.code, vm, i, vm', Violation(slot, empty));
  }

  // ---- Whole programs ----

  /** The run and the meaning end alike: same kernel, same number of expectations judged, same failure. */
  ghost predicate Agree(run: Run, meaning: Meaning) {
    match meaning
    case Done(s) => run.Finished? && run.vm.machine == s.machine && run.vm.expectations == s.expectations
    case Failed(s, slot, empty) =>
      run.Halted? && run.halt == Violation(slot, empty) && run.vm.machine == s.machine && run.vm.expectations == s.expectations
  }

  lemma CallKeepsBounds(s: Direct, call: Call, allocations: nat)
    requires Inv(s.machine.store) && CallFits(call, |s.temps|) && Bounded(s, allocations)
    requires AllocatedBy(call) <= allocations
    ensures Bounded(DirectCall(s, call).state, allocations - AllocatedBy(call))
  {
    hide Inv;
    var after := DirectCall(s, call).state;
    var log, log' := s.machine.store.log, after.machine.store.log;
    forall i | 0 <= i < |log'| && log'[i].fact.Some? && log'[i].fact.value.target.Entity? ensures log'[i].fact.value.target.id < LITERAL_BASE {
      if i < |log| {
        assert log'[i] == log[i];
      }
    }
  }

  lemma CallRuns(d: Draft, call: Call, final: Draft, s: Direct, vm: Vm) returns (vm': Vm)
    requires CallFits(call, |s.temps|) && Small(s.machine.store) && Tidy(d) && Tidy(final)
    requires Within(CompileCall(d, call), final) && Related(d, s, vm, final) && Inv(s.machine.store)
    ensures var meaning := DirectCall(s, call);
      var next := CompileCall(d, call);
      && Related(next, meaning.state, vm', final) && |d.code| <= |final.code| && |next.code| <= |final.code|
      && Inv(vm'.machine.store)
      && RunFrom(EnvFor(final), final.code, vm, |d.code|) == Continued(final, meaning, vm', |next.code|)
  {
    hide Inv, RunFrom, StepAt, CompileCall, Tidy, Small, Related, RefFits;
    var after := DirectCall(s, call).state;
    match call {
      case Allocate =>
        AllocateRuns(d, final, s, vm);
        LocalsFit(d, final, s, vm);
        vm' := vm.(machine := after.machine, locals := vm.locals[d.nextLocal := EntityValue(s.machine.nextEntity)]);
      case Define(_, _, _, _) =>
        DefineRuns(d, call, final, s, vm);
        vm' := vm.(machine := after.machine);
      case Forget(slot) =>
        ForgetRuns(d, slot, final, s, vm);
        vm' := vm.(machine := after.machine);
      case ExpectObject(slot, expected) =>
        ExpectRuns(d, slot, expected, final, s, vm);
        vm' := vm.(expectations := vm.expectations + 1);
    }
    RelatedMachine(CompileCall(d, call), after, vm', final);
  }

  lemma LocalsFit(d: Draft, final: Draft, s: Direct, vm: Vm)
    requires Within(CompileCall(d, Allocate), final) && Related(d, s, vm, final)
    ensures d.nextLocal < |vm.locals|
  {
  }

  lemma RelatedMachine(d: Draft, s: Direct, vm: Vm, final: Draft)
    requires Related(d, s, vm, final)
    ensures vm.machine == s.machine && vm.expectations == s.expectations && |s.temps| == d.nextLocal
  {
  }

  lemma {:induction false} Simulate(d: Draft, calls: seq<Call>, final: Draft, s: Direct, vm: Vm)
    requires WellFormed(calls, |s.temps|) && Tidy(d) && final == CompileAll(d, calls, |s.temps|)
    requires Related(d, s, vm, final) && Inv(s.machine.store) && Bounded(s, Allocations(calls))
    ensures |d.code| <= |final.code| && Inv(vm.machine.store)
    ensures Agree(RunFrom(EnvFor(final), final.code, vm, |d.code|), DirectAll(s, calls))
    decreases |calls|
  {
    hide Inv, StepAt, CompileCall, Tidy, Small, Related, RefFits, DirectCall, Within;
    CompileAllGrows(d, calls, |s.temps|);
    RelatedMachine(d, s, vm, final);
    CodeFits(d, final);
    if calls != [] {
      var call, rest, next := calls[0], calls[1..], CompileCall(d, calls[0]);
      CompileStaysTidy(d, call, |s.temps|);
      CompileAllGrows(next, rest, |s.temps| + AllocatedBy(call));
      var vm' := CallRuns(d, call, final, s, vm);
      match DirectCall(s, call)
      case Failed(after, _, _) => RelatedMachine(next, after, vm', final);
      case Done(after) =>
        CallKeepsBounds(s, call, Allocations(calls));
        Simulate(next, rest, final, after, vm');
    }
  }

  lemma CodeFits(d: Draft, final: Draft)
    requires Within(d, final)
    ensures |d.code| <= |final.code|
  {
  }

  lemma CompileStaysTidy(d: Draft, call: Call, temps: nat)
    requires Tidy(d) && CallFits(call, temps)
    ensures Tidy(CompileCall(d, call))
  {
    CompileGrows(d, call);
  }

  /** Compiler correctness: running the compiled frame leaves the kernel as the calls leave it, and fails on the same
      expectation, in the same way, or not at all. */
  lemma CompiledRunsAsMeant(calls: seq<Call>, namespace: nat, machine: C.Machine)
    requires Inv(machine.store) && WellFormed(calls, 0)
    requires Small(machine.store) && machine.nextEntity + Allocations(calls) <= LITERAL_BASE
    ensures Agree(RunFrame(machine, FrameOf(CompileAll(NEW_DRAFT, calls, 0), namespace)), DirectAll(Direct(machine, [], 0), calls))
  {
    hide Inv, RunFrom, DictItems, Small;
    var final := CompileAll(NEW_DRAFT, calls, 0);
    var frame := FrameOf(final, namespace);
    FrameEnv(final, namespace);
    Simulate(NEW_DRAFT, calls, final, Direct(machine, [], 0), StartVm(machine, frame));
  }

  // ---- The builder ----

  /** A dictionary and the list it was filled in, for names numbered from a base. */
  ghost predicate Interned(index: map<Name, nat>, list: seq<DictEntry>, base: nat, names: seq<Name>) {
    && |index| == |names| && list == Numbered(base, names)
    && forall name :: (name in index <==> name in names) && (name in index ==> index[name] == base + PlaceOf(names, name))
  }

  method InternIn(index: map<Name, nat>, list: seq<DictEntry>, base: nat, name: Name, ghost names: seq<Name>)
    returns (index': map<Name, nat>, list': seq<DictEntry>, cell: nat)
    requires Interned(index, list, base, names)
    ensures Interned(index', list', base, Intern(names, name)) && cell == base + PlaceOf(names, name)
  {
    if name in index {
      return index, list, index[name];
    }
    cell := base + |index|;
    index', list' := index[name := cell], list + [(cell, name)];
    InternNew(index, list, base, name, names);
  }

  lemma InternNew(index: map<Name, nat>, list: seq<DictEntry>, base: nat, name: Name, names: seq<Name>)
    requires Interned(index, list, base, names) && name !in index
    ensures Interned(index[name := base + |index|], list + [(base + |index|, name)], base, names + [name])
  {
    var more := names + [name];
    assert list + [(base + |index|, name)] == Numbered(base, more);
    FreshPlace(names, name);
    forall n | n in names ensures PlaceOf(more, n) == PlaceOf(names, n) && n in more {
      PlaceIsStable(names, more, n);
      assert more[PlaceOf(names, n)] == n;
    }
    assert more[|names|] == name;
  }

  class TransactionBuilder {
    const namespace: nat
    var nextLocal: nat
    var slots: map<Name, nat>
    var slotList: seq<DictEntry>
    var predicates: map<Name, nat>
    var predicateList: seq<DictEntry>
    var literals: map<Name, nat>
    var literalList: seq<DictEntry>
    var instructions: seq<Instruction>
    ghost var draft: Draft

    ghost predicate Valid()
      reads this
    {
      && Interned(slots, slotList, 0, draft.slots) && Interned(predicates, predicateList, 0, draft.predicates)
      && Interned(literals, literalList, LITERAL_BASE, draft.literals)
      && nextLocal == draft.nextLocal && instructions == draft.code
    }

    constructor (namespace: nat)
      ensures Valid() && draft == NEW_DRAFT && this.namespace == namespace
    {
      this.namespace, nextLocal, instructions, draft := namespace, 0, [], NEW_DRAFT;
      slots, predicates, literals := map[], map[], map[];
      slotList, predicateList, literalList := [], [], [];
    }

    method Append(opcode: byte, argument: nat, immediate: nat)
      requires Valid()
      modifies this`instructions, this`draft
      ensures Valid() && draft == Emit(old(draft), opcode, argument, immediate)
    {
      hide Interned;
      instructions := instructions + [Instruction(opcode, argument, immediate)];
      draft := Emit(draft, opcode, argument, immediate);
    }

    method GetSlot(slot: Name) returns (token: nat)
      requires Valid()
      modifies this`slots, this`slotList, this`draft
      ensures Valid() && draft == old(draft).(slots := Intern(old(draft).slots, slot))
      ensures token == PlaceOf(old(draft).slots, slot)
    {
      hide Interned;
      slots, slotList, token := InternIn(slots, slotList, 0, slot, draft.slots);
      draft := draft.(slots := Intern(draft.slots, slot));
    }

    method GetPredicate(relation: Name) returns (cell: nat)
      requires Valid()
      modifies this`predicates, this`predicateList, this`draft
      ensures Valid() && draft == old(draft).(predicates := Intern(old(draft).predicates, relation))
      ensures cell == PlaceOf(old(draft).predicates, relation)
    {
      hide Interned;
      predicates, predicateList, cell := InternIn(predicates, predicateList, 0, relation, draft.predicates);
      draft := draft.(predicates := Intern(draft.predicates, relation));
    }

    method GetLiteral(text: Name) returns (cell: nat)
      requires Valid()
      modifies this`literals, this`literalList, this`draft
      ensures Valid() && draft == old(draft).(literals := Intern(old(draft).literals, text))
      ensures cell == LITERAL_BASE + PlaceOf(old(draft).literals, text)
    {
      hide Interned;
      literals, literalList, cell := InternIn(literals, literalList, LITERAL_BASE, text, draft.literals);
      draft := draft.(literals := Intern(draft.literals, text));
    }

    method Allocate() returns (temp: AtomRef)
      requires Valid()
      modifies this
      ensures Valid() && draft == CompileCall(old(draft), Call.Allocate) && temp == TempRef(old(draft).nextLocal)
    {
      hide Interned;
      temp := TempRef(nextLocal);
      nextLocal := nextLocal + 1;
      draft := draft.(nextLocal := nextLocal);
      Append(ALLOCATE, 0, 0);
      Append(STORE_LOCAL, temp.index, 0);
    }

    method PushReference(ref: AtomRef)
      requires Valid()
      modifies this`literals, this`literalList, this`instructions, this`draft
      ensures Valid() && draft == PushAtom(old(draft), ref)
    {
      hide Interned, PlaceOf, Intern;
      match ref {
        case EntityRef(id) => Append(PUSH_CELL, 0, id);
        case TempRef(index) => Append(LOAD_LOCAL, index, 0);
        case LiteralRef(text) =>
          var cell := GetLiteral(text);
          Append(PUSH_CELL, 0, cell);
      }
    }

    method Define(slot: Name, subject: AtomRef, relation: Name, target: AtomRef)
      requires Valid()
      modifies this
      ensures Valid() && draft == CompileCall(old(draft), Call.Define(slot, subject, relation, target))
    {
      hide Interned, PlaceOf, Intern, PushAtom;
      var token := GetSlot(slot);
      PushReference(subject);
      var cell := GetPredicate(relation);
      Append(PUSH_CELL, 0, cell);
      PushReference(target);
      Append(DEFINE, token, 0);
    }

    method Forget(slot: Name)
      requires Valid()
      modifies this
      ensures Valid() && draft == CompileCall(old(draft), Call.Forget(slot))
    {
      hide Interned, PlaceOf, Intern;
      var token := GetSlot(slot);
      Append(FORGET, token, 0);
    }

    method ExpectObject(slot: Name, expected: AtomRef)
      requires Valid() && !expected.TempRef?
      modifies this
      ensures Valid() && draft == CompileCall(old(draft), Call.ExpectObject(slot, expected))
    {
      hide Interned, PlaceOf, Intern;
      var token := GetSlot(slot);
      match expected {
        case EntityRef(id) => Append(EXPECT_OBJECT, token, id);
        case LiteralRef(text) =>
          var cell := GetLiteral(text);
          Append(EXPECT_OBJECT, token, cell);
      }
    }

    function BuildFrame(): (frame: StreamFrame)
      requires Valid()
      reads this
      ensures frame == FrameOf(draft, namespace)
    {
      StreamFrame(ISA_VERSION, namespace, Dictionary(slotList, predicateList, literalList), nextLocal, instructions)
    }
  }

  method Build(calls: seq<Call>, namespace: nat) returns (frame: StreamFrame)
    requires WellFormed(calls, 0)
    ensures frame == FrameOf(CompileAll(NEW_DRAFT, calls, 0), namespace)
  {
    hide CompileCall, TransactionBuilder.Valid, CallFits;
    var builder := new TransactionBuilder(namespace);
    ghost var temps: nat := 0;
    assert calls[0..] == calls;
    for i := 0 to |calls|
      invariant builder.Valid() && builder.namespace == namespace && WellFormed(calls[i..], temps)
      invariant CompileAll(builder.draft, calls[i..], temps) == CompileAll(NEW_DRAFT, calls, 0)
    {
      assert calls[i..][0] == calls[i] && calls[i..][1..] == calls[i + 1..];
      ExpectedIsPlain(calls[i], temps);
      match calls[i] {
        case Allocate => var _ := builder.Allocate();
        case Define(slot, subject, relation, target) => builder.Define(slot, subject, relation, target);
        case Forget(slot) => builder.Forget(slot);
        case ExpectObject(slot, expected) => builder.ExpectObject(slot, expected);
      }
      temps := temps + AllocatedBy(calls[i]);
    }
    frame := builder.BuildFrame();
  }

  lemma ExpectedIsPlain(call: Call, temps: nat)
    requires CallFits(call, temps)
    ensures call.ExpectObject? ==> !call.expected.TempRef?
  {
  }

  /** Build, encode, decode, execute: the kernel ends where the calls themselves would have taken it, and the same
      expectation fails, or none. */
  method CompileAndExecute(kernel: LegacyKernel.Kernel, calls: seq<Call>, namespace: nat, reader: Reader)
    returns (halt: Option<Halt>, expectations: nat, records: seq<Record>)
    requires kernel.Valid() && WellFormed(calls, 0)
    requires Small(kernel.Model()) && kernel.nextEntity + Allocations(calls) <= LITERAL_BASE
    requires FrameFits(FrameOf(CompileAll(NEW_DRAFT, calls, 0), namespace)) && forall opcode: byte :: opcode <= 8 ==>
      reader.knows(opcode)
    modifies kernel
    ensures kernel.Valid() && Inv(old(MachineOf(kernel)).store) && kernel.log == old(kernel.log) + records
    ensures match DirectAll(Direct(old(MachineOf(kernel)), [], 0), calls)
      case Done(s) => halt.None? && MachineOf(kernel) == s.machine && expectations == s.expectations
      case Failed(s, slot, empty) => halt == Some(Violation(slot, empty)) && MachineOf(kernel) == s.machine && expectations == s.expectations
  {
    hide LegacyKernel.Kernel.Valid, Inv, CompileAll, FrameOf, RunFrame, DirectAll;
    hide FrameFits, EncodeFrame, ParseFrame, Small;
    KernelIsSound(kernel);
    var frame := Build(calls, namespace);
    var bytes := WriteFrame(frame);
    CompiledOpcodes(NEW_DRAFT, calls, 0, namespace);
    FrameRoundTrip(reader, frame, []);
    assert EncodeFrame(frame) + [] == EncodeFrame(frame);
    var read := ReadFrame(reader, bytes);
    CompiledRunsAsMeant(calls, namespace, MachineOf(kernel));
    halt, expectations, records := ExecuteIsaFrame(kernel, read.value);
  }

  ghost predicate Defined(code: seq<Instruction>) {
    forall i :: 0 <= i < |code| ==> code[i].opcode <= 8
  }

  lemma CallOpcodes(d: Draft, call: Call)
    requires Defined(d.code) && (call.ExpectObject? ==> !call.expected.TempRef?)
    ensures Defined(CompileCall(d, call).code)
  {
    hide PlaceOf, Intern;
    if call.Define? {
      hide Defined, CompileDefine;
      var d0 := d.(slots := Intern(d.slots, call.slot));
      var d1 := PushAtom(d0, call.subject);
      PushOpcodes(d0, call.subject);
      var d2 := Emit(d1.(predicates := Intern(d1.predicates, call.relation)), PUSH_CELL, 0, PlaceOf(d1.predicates, call.relation));
      EmitOpcode(d1.code, d2.code[|d1.code|]);
      PushOpcodes(d2, call.target);
      var d3 := PushAtom(d2, call.target);
      EmitOpcode(d3.code, Instruction(DEFINE, PlaceOf(d.slots, call.slot), 0));
      DefineCode(d, call);
    }
  }

  lemma DefineCode(d: Draft, call: Call)
    requires call.Define?
    ensures CompileCall(d, call).code
      == (var d0 := d.(slots := Intern(d.slots, call.slot));
          var d1 := PushAtom(d0, call.subject);
          var d2 := Emit(d1.(predicates := Intern(d1.predicates, call.relation)), PUSH_CELL, 0, PlaceOf(d1.predicates, call.relation));
          PushAtom(d2, call.target).code + [Instruction(DEFINE, PlaceOf(d.slots, call.slot), 0)])
  {
    hide PlaceOf, Intern, PushAtom;
  }

  lemma EmitOpcode(code: seq<Instruction>, instruction: Instruction)
    requires Defined(code) && instruction.opcode <= 8
    ensures Defined(code + [instruction])
  {
  }

  lemma PushOpcodes(d: Draft, ref: AtomRef)
    requires Defined(d.code)
    ensures Defined(PushAtom(d, ref).code)
  {
    hide PlaceOf, Intern;
  }

  lemma {:induction false} CompiledOpcodes(d: Draft, calls: seq<Call>, temps: nat, namespace: nat)
    requires WellFormed(calls, temps) && Defined(d.code)
    ensures Defined(FrameOf(CompileAll(d, calls, temps), namespace).instructions)
    decreases |calls|
  {
    if calls != [] {
      hide Defined, CompileCall;
      ExpectedIsPlain(calls[0], temps);
      CallOpcodes(d, calls[0]);
      CompiledOpcodes(CompileCall(d, calls[0]), calls[1..], temps + AllocatedBy(calls[0]), namespace);
    }
  }

  // ---- Where the bounds are needed ----

  /** Expecting entity 0 passes on a literal the stream does not mention. */
  lemma ZeroPassesForALiteral(text: Name, d: Draft)
    requires text !in d.literals
    ensures Meets(EnvFor(d), Literal(text), 0) && Literal(text) != Entity(0)
  {
    CellOfNumbered(LITERAL_BASE, d.literals, text);
  }

  /** An entity id of 2^63 is read back as a literal. */
  lemma LargeIdsBecomeLiterals(d: Draft)
    ensures AtomOf(EnvFor(d), CellValue(LITERAL_BASE)).Some?
    ensures AtomOf(EnvFor(d), CellValue(LITERAL_BASE)).value.Literal?
  {
  }
}
