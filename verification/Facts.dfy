/** Facts, query patterns and one-fact unification. */
module Facts {
  import opened Words

  datatype Option<+T> = None | Some(value: T)

  datatype Result<+T, +E> = Ok(value: T) | Err(error: E)

  /** Slot, predicate, literal and variable names are UTF-8 byte strings. */
  type Name = seq<byte>

  datatype Atom = Entity(id: nat) | Literal(text: Name)

  datatype Fact = Fact(subject: Atom, relation: Name, target: Atom)

  datatype Term = AtomTerm(atom: Atom) | VariableTerm(name: Name)

  datatype PredicateTerm = PredicateConstant(relation: Name) | PredicateVariable(name: Name)

  datatype Pattern = Pattern(subject: Term, relation: PredicateTerm, target: Term)

  datatype BoundValue = BoundEntity(id: nat) | BoundLiteral(text: Name) | BoundPredicate(relation: Name) {
    function AsAtom(): Option<Atom> {
      match this
      case BoundEntity(id) => Some(Entity(id))
      case BoundLiteral(text) => Some(Literal(text))
      case BoundPredicate(_) => None
    }

    function AsPredicate(): Option<Name> {
      match this
      case BoundPredicate(relation) => Some(relation)
      case _ => None
    }
  }

  type Binding = map<Name, BoundValue>

  /** An active definition: its record, the slot it came from and its fact. */
  datatype Entry = Entry(id: nat, slot: Name, fact: Fact)

  function FromAtom(atom: Atom): BoundValue {
    match atom
    case Entity(id) => BoundEntity(id)
    case Literal(text) => BoundLiteral(text)
  }

  // ---- What a pattern already knows under a binding ----

  function ResolvedAtom(term: Term, binding: Binding): Option<Atom> {
    match term
    case AtomTerm(atom) => Some(atom)
    case VariableTerm(name) => if name in binding then binding[name].AsAtom() else None
  }

  function ResolvedPredicate(term: PredicateTerm, binding: Binding): Option<Name> {
    match term
    case PredicateConstant(relation) => Some(relation)
    case PredicateVariable(name) => if name in binding then binding[name].AsPredicate() else None
  }

  // ---- Unification ----

  function UnifyVariable(name: Name, value: BoundValue, binding: Binding): Option<Binding> {
    if name in binding then
      if binding[name] == value then Some(binding) else None
    else
      Some(binding[name := value])
  }

  function UnifyTerm(term: Term, value: BoundValue, binding: Binding): Option<Binding> {
    match term
    case AtomTerm(atom) => if value.AsAtom() == Some(atom) then Some(binding) else None
    case VariableTerm(name) => UnifyVariable(name, value, binding)
  }

  function UnifyPredicate(term: PredicateTerm, value: BoundValue, binding: Binding): Option<Binding> {
    match term
    case PredicateConstant(relation) => if value.AsPredicate() == Some(relation) then Some(binding) else None
    case PredicateVariable(name) => UnifyVariable(name, value, binding)
  }

  function UnifyPattern(pattern: Pattern, fact: Fact, binding: Binding): Option<Binding> {
    match UnifyTerm(pattern.subject, FromAtom(fact.subject), binding)
    case None => None
    case Some(b1) =>
      match UnifyPredicate(pattern.relation, BoundPredicate(fact.relation), b1)
      case None => None
      case Some(b2) => UnifyTerm(pattern.target, FromAtom(fact.target), b2)
  }

  /** Unify one pattern and then another. */
  function UnifyTwo(p: Pattern, f: Fact, q: Pattern, g: Fact, binding: Binding): Option<Binding> {
    match UnifyPattern(p, f, binding)
    case None => None
    case Some(b) => UnifyPattern(q, g, b)
  }

  /** What unification means: the least extension of `binding` that makes the pattern read as the fact. */
  ghost predicate Denotes(term: Term, atom: Atom, binding: Binding) {
    match term
    case AtomTerm(a) => a == atom
    case VariableTerm(name) => name in binding && binding[name] == FromAtom(atom)
  }

  ghost predicate DenotesPredicate(term: PredicateTerm, relation: Name, binding: Binding) {
    match term
    case PredicateConstant(r) => r == relation
    case PredicateVariable(name) => name in binding && binding[name] == BoundPredicate(relation)
  }

  ghost predicate Instance(pattern: Pattern, fact: Fact, binding: Binding) {
    && Denotes(pattern.subject, fact.subject, binding)
    && DenotesPredicate(pattern.relation, fact.relation, binding)
    && Denotes(pattern.target, fact.target, binding)
  }

  ghost predicate Extends(large: Binding, small: Binding) {
    small.Items <= large.Items
  }

  function Variables(pattern: Pattern): set<Name> {
    (if pattern.subject.VariableTerm? then {pattern.subject.name} else {})
    + (if pattern.relation.PredicateVariable? then {pattern.relation.name} else {})
    + (if pattern.target.VariableTerm? then {pattern.target.name} else {})
  }

  lemma ExtendsPointwise(large: Binding, small: Binding)
    ensures Extends(large, small) <==> forall x :: x in small ==> x in large && large[x] == small[x]
  {
    if Extends(large, small) {
      forall x | x in small ensures x in large && large[x] == small[x] {
        assert (x, small[x]) in large.Items;
      }
    }
  }

  lemma TermInstance(term: Term, atom: Atom, b: Binding)
    ensures var r := UnifyTerm(term, FromAtom(atom), b);
      && (r.Some? ==> Extends(r.value, b) && Denotes(term, atom, r.value)
                      && r.value.Keys == b.Keys + (if term.VariableTerm? then {term.name} else {}))
      && forall c: Binding :: Extends(c, b) && Denotes(term, atom, c) ==> r.Some? && Extends(c, r.value)
  {
    var r := UnifyTerm(term, FromAtom(atom), b);
    if r.Some? {
      ExtendsPointwise(r.value, b);
    }
    forall c: Binding | Extends(c, b) && Denotes(term, atom, c) ensures r.Some? && Extends(c, r.value) {
      ExtendsPointwise(c, b);
      if r.Some? {
        ExtendsPointwise(c, r.value);
      }
    }
  }

  lemma PredicateInstance(term: PredicateTerm, relation: Name, b: Binding)
    ensures var r := UnifyPredicate(term, BoundPredicate(relation), b);
      && (r.Some? ==> Extends(r.value, b) && DenotesPredicate(term, relation, r.value)
                      && r.value.Keys == b.Keys + (if term.PredicateVariable? then {term.name} else {}))
      && forall c: Binding :: Extends(c, b) && DenotesPredicate(term, relation, c) ==> r.Some? && Extends(c, r.value)
  {
    var r := UnifyPredicate(term, BoundPredicate(relation), b);
    if r.Some? {
      ExtendsPointwise(r.value, b);
    }
    forall c: Binding | Extends(c, b) && DenotesPredicate(term, relation, c) ensures r.Some? && Extends(c, r.value) {
      ExtendsPointwise(c, b);
      if r.Some? {
        ExtendsPointwise(c, r.value);
      }
    }
  }

  lemma DenotesMonotone(large: Binding, small: Binding)
    requires Extends(large, small)
    ensures forall term, atom :: Denotes(term, atom, small) ==> Denotes(term, atom, large)
    ensures forall term, relation :: DenotesPredicate(term, relation, small) ==> DenotesPredicate(term, relation, large)
  {
    ExtendsPointwise(large, small);
  }

  /** Unification succeeds exactly when some extension of the binding instantiates the pattern to the
      fact, and then it returns the least one: nothing outside the pattern's variables is bound. */
  lemma UnifyIsLeastInstance(pattern: Pattern, fact: Fact, binding: Binding)
    ensures var r := UnifyPattern(pattern, fact, binding);
      && (r.Some? ==> Extends(r.value, binding) && Instance(pattern, fact, r.value)
                      && r.value.Keys == binding.Keys + Variables(pattern))
      && (forall b: Binding :: Extends(b, binding) && Instance(pattern, fact, b) ==> r.Some? && Extends(b, r.value))
  {
    hide UnifyTerm, UnifyPredicate, Denotes, DenotesPredicate;
    TermInstance(pattern.subject, fact.subject, binding);
    var first := UnifyTerm(pattern.subject, FromAtom(fact.subject), binding);
    if first.Some? {
      PredicateInstance(pattern.relation, fact.relation, first.value);
      var second := UnifyPredicate(pattern.relation, BoundPredicate(fact.relation), first.value);
      if second.Some? {
        TermInstance(pattern.target, fact.target, second.value);
        var third := UnifyTerm(pattern.target, FromAtom(fact.target), second.value);
        if third.Some? {
          DenotesMonotone(second.value, first.value);
          DenotesMonotone(third.value, second.value);
        }
      }
    }
  }

  /** A pattern can only unify with facts that agree with what it already knows, so the indexes,
      which look facts up by those known parts, lose nothing. */
  lemma UnifyNeedsKnownParts(pattern: Pattern, fact: Fact, binding: Binding)
    requires UnifyPattern(pattern, fact, binding).Some?
    ensures ResolvedAtom(pattern.subject, binding) in {None, Some(fact.subject)}
    ensures ResolvedPredicate(pattern.relation, binding) in {None, Some(fact.relation)}
    ensures ResolvedAtom(pattern.target, binding) in {None, Some(fact.target)}
  {
  }

  // ---- Unification steps commute ----

  datatype Step = Check(holds: bool) | Bind(name: Name, value: BoundValue)

  function RunStep(step: Step, binding: Binding): Option<Binding> {
    match step
    case Check(holds) => if holds then Some(binding) else None
    case Bind(name, value) => UnifyVariable(name, value, binding)
  }

  function RunSteps(steps: seq<Step>, binding: Binding): Option<Binding>
    decreases |steps|
  {
    if steps == [] then Some(binding)
    else match RunStep(steps[0], binding)
      case None => None
      case Some(b) => RunSteps(steps[1..], b)
  }

  function TermStep(term: Term, value: BoundValue): Step {
    match term
    case AtomTerm(atom) => Check(value.AsAtom() == Some(atom))
    case VariableTerm(name) => Bind(name, value)
  }

  function PredicateStep(term: PredicateTerm, value: BoundValue): Step {
    match term
    case PredicateConstant(relation) => Check(value.AsPredicate() == Some(relation))
    case PredicateVariable(name) => Bind(name, value)
  }

  function Steps(p: Pattern, f: Fact): seq<Step> {
    [TermStep(p.subject, FromAtom(f.subject)), PredicateStep(p.relation, BoundPredicate(f.relation)),
     TermStep(p.target, FromAtom(f.target))]
  }

  lemma UnifyIsRunSteps(p: Pattern, f: Fact, b: Binding)
    ensures UnifyPattern(p, f, b) == RunSteps(Steps(p, f), b)
  {
    var x, y, z := Steps(p, f)[0], Steps(p, f)[1], Steps(p, f)[2];
    assert Steps(p, f) == [x] + [y] + [z];
    RunStepsConcat([x] + [y], [z], b);
    RunStepsConcat([x], [y], b);
    forall step: Step, c: Binding ensures RunSteps([step], c) == RunStep(step, c) {
      assert [step][1..] == [];
    }
  }

  lemma {:induction false} RunStepsConcat(s: seq<Step>, t: seq<Step>, b: Binding)
    ensures RunSteps(s + t, b) == match RunSteps(s, b) case None => None case Some(c) => RunSteps(t, c)
    decreases |s|
  {
    if s == [] {
      assert s + t == t;
    } else {
      assert (s + t)[1..] == s[1..] + t;
      match RunStep(s[0], b)
      case None =>
      case Some(c) => RunStepsConcat(s[1..], t, c);
    }
  }

  lemma SwapSteps(x: Step, y: Step, rest: seq<Step>, b: Binding)
    ensures RunSteps([x, y] + rest, b) == RunSteps([y, x] + rest, b)
  {
    assert ([x, y] + rest)[1..] == [y] + rest && ([y] + rest)[1..] == rest;
    assert ([y, x] + rest)[1..] == [x] + rest && ([x] + rest)[1..] == rest;
    if x.Bind? && y.Bind? && x.name !in b && y.name !in b && x.name != y.name {
      assert b[x.name := x.value][y.name := y.value] == b[y.name := y.value][x.name := x.value];
    }
  }

  lemma {:induction false} MoveStep(x: Step, s: seq<Step>, rest: seq<Step>, b: Binding)
    ensures RunSteps([x] + s + rest, b) == RunSteps(s + [x] + rest, b)
    decreases |s|
  {
    if s == [] {
      assert [x] + s + rest == s + [x] + rest;
    } else {
      var y := s[0];
      assert [x] + s + rest == [x, y] + (s[1..] + rest);
      SwapSteps(x, y, s[1..] + rest, b);
      var tail := [x] + s[1..] + rest;
      assert [y, x] + (s[1..] + rest) == [y] + tail && ([y] + tail)[1..] == tail;
      assert s + [x] + rest == [y] + (s[1..] + [x] + rest);
      assert (s + [x] + rest)[1..] == s[1..] + [x] + rest;
      match RunStep(y, b)
      case None =>
      case Some(c) => MoveStep(x, s[1..], rest, c);
    }
  }

  lemma {:induction false} SwapBlocks(s: seq<Step>, t: seq<Step>, b: Binding)
    ensures RunSteps(s + t, b) == RunSteps(t + s, b)
    decreases |s|
  {
    if s == [] {
      assert s + t == t && t + s == t;
    } else {
      var x, s' := s[0], s[1..];
      assert s + t == [x] + (s' + t) && ([x] + (s' + t))[1..] == s' + t;
      assert [x] + (t + s') == [x] + t + s' && ([x] + (t + s'))[1..] == t + s';
      match RunStep(x, b) {
        case None =>
        case Some(c) => SwapBlocks(s', t, c);
      }
      MoveStep(x, t, s', b);
      assert t + [x] + s' == t + s;
    }
  }

  /** Two patterns may be unified in either order: the same facts fit, with the same final binding. */
  lemma UnifyCommutes(p: Pattern, f: Fact, q: Pattern, g: Fact, b: Binding)
    ensures UnifyTwo(p, f, q, g, b) == UnifyTwo(q, g, p, f, b)
  {
    var s, t := Steps(p, f), Steps(q, g);
    SwapBlocks(s, t, b);
    UnifyTwoIsRunSteps(p, f, q, g, b);
    UnifyTwoIsRunSteps(q, g, p, f, b);
  }

  lemma UnifyTwoIsRunSteps(p: Pattern, f: Fact, q: Pattern, g: Fact, b: Binding)
    ensures UnifyTwo(p, f, q, g, b) == RunSteps(Steps(p, f) + Steps(q, g), b)
  {
    RunStepsConcat(Steps(p, f), Steps(q, g), b);
    UnifyIsRunSteps(p, f, b);
    match UnifyPattern(p, f, b)
    case None =>
    case Some(c) => UnifyIsRunSteps(q, g, c);
  }
}
