/** The physical snapshot of a projection: sorted string tables, records in which strings are tokens, one head per
    slot, and three sorted indexes of the active records. Every question asked of it is answered from these. */
module Snapshot {
  import opened Words
  import opened Facts
  import opened Store
  import opened Joins
  import opened Query
  import opened QueryLaws
  import opened Projection
  import opened SortedIndex
  import Interpreter

  /** The sentinel for "no record", outside every record index. */
  const NONE: nat := U32 - 1
  const LITERAL_BASE: nat := Interpreter.LITERAL_BASE

  datatype MappedRecord = MappedRecord(originalId: nat, slot: nat, previous: nat, subject: nat, relation: nat, target: nat)

  datatype Image = Image(slots: seq<Name>, predicates: seq<Name>, literals: seq<Name>, records: seq<MappedRecord>,
                         heads: seq<nat>, active: seq<nat>, spo: seq<IndexEntry>, pos: seq<IndexEntry>, osp: seq<IndexEntry>)

  predicate CellFits(m: Image, cell: nat) {
    cell < LITERAL_BASE || cell - LITERAL_BASE < |m.literals|
  }

  predicate RecordFits(m: Image, i: nat)
    requires i < |m.records|
  {
    var r := m.records[i];
    && r.slot < |m.slots| && r.relation < |m.predicates| && (r.previous != NONE ==> r.previous < i)
    && CellFits(m, r.subject) && CellFits(m, r.target)
  }

  /** Every index stays inside its section. */
  predicate Sound(m: Image) {
    && |m.records| <= NONE && |m.predicates| < U32 && |m.literals| < U32 && |m.heads| == |m.slots|
    && (forall i :: 0 <= i < |m.records| ==> RecordFits(m, i))
    && (forall t :: 0 <= t < |m.heads| ==> m.heads[t] == NONE || m.heads[t] < |m.records|)
    && (forall i :: 0 <= i < |m.active| ==> m.active[i] < |m.records|)
    && (forall i :: 0 <= i < |m.spo| ==> m.spo[i].record < |m.records|)
    && (forall i :: 0 <= i < |m.pos| ==> m.pos[i].record < |m.records|)
    && (forall i :: 0 <= i < |m.osp| ==> m.osp[i].record < |m.records|)
  }

  predicate IdsInRange(m: Image) { forall i :: 0 <= i < |m.records| ==> m.records[i].originalId < U64 }

  // ---- Reading records ----

  function AtomAt(m: Image, cell: nat): Atom
    requires CellFits(m, cell)
  {
    if cell < LITERAL_BASE then Entity(cell) else Literal(m.literals[cell - LITERAL_BASE])
  }

  function EntryOf(m: Image, i: nat): Entry
    requires Sound(m) && i < |m.records|
  {
    assert RecordFits(m, i);
    var r := m.records[i];
    Entry(r.originalId, m.slots[r.slot], Fact(AtomAt(m, r.subject), m.predicates[r.relation], AtomAt(m, r.target)))
  }

  /** The definitions below a record, bottom first. Previous records strictly decrease, so the walk ends. */
  function Chain(m: Image, i: nat): seq<Entry>
    requires Sound(m) && (i == NONE || i < |m.records|)
    decreases if i == NONE then 0 else i + 1
  {
    if i == NONE then []
    else
      assert RecordFits(m, i);
      Chain(m, m.records[i].previous) + [EntryOf(m, i)]
  }

  function HeadFor(m: Image, slot: Name): (head: nat)
    requires Sound(m)
    ensures head == NONE || head < |m.records|
  {
    match TokenOf(m.slots, slot)
    case None => NONE
    case Some(token) => m.heads[token]
  }

  function Resolve(m: Image, slot: Name): Option<Fact>
    requires Sound(m)
  {
    var head := HeadFor(m, slot);
    if head == NONE then None else Some(EntryOf(m, head).fact)
  }

  method Definitions(m: Image, slot: Name) returns (facts: seq<Fact>)
    requires Sound(m)
    ensures facts == NewestFirst(Chain(m, HeadFor(m, slot)))
  {
    hide EntryOf;
    facts := [];
    var record: nat := HeadFor(m, slot);
    while record != NONE
      invariant record == NONE || record < |m.records|
      invariant facts + NewestFirst(Chain(m, record)) == NewestFirst(Chain(m, HeadFor(m, slot)))
      decreases if record == NONE then 0 else record + 1
    {
      assert RecordFits(m, record);
      NewestFirstLast(Chain(m, m.records[record].previous), EntryOf(m, record));
      facts := facts + [EntryOf(m, record).fact];
      record := m.records[record].previous;
    }
  }

  lemma NewestFirstLast(front: seq<Entry>, e: Entry)
    ensures NewestFirst(front + [e]) == [e.fact] + NewestFirst(front)
  {
    assert (front + [e])[..|front|] == front;
  }

  // ---- Candidates ----

  datatype Known = Unbound | Missing | Value(cell: nat)

  function CellForQuery(m: Image, atom: Atom): Known {
    match atom
    case Entity(id) => if id < LITERAL_BASE then Value(id) else Missing
    case Literal(text) => match TokenOf(m.literals, text) case None => Missing case Some(token) => Value(LITERAL_BASE + token)
  }

  /** A bound variable that is no atom can match nothing here. */
  function KnownAtom(m: Image, term: Term, b: Binding): Known {
    match term
    case AtomTerm(atom) => CellForQuery(m, atom)
    case VariableTerm(name) =>
      if name !in b then Unbound
      else match b[name].AsAtom() case None => Missing case Some(atom) => CellForQuery(m, atom)
  }

  function PredicateForQuery(m: Image, relation: Name): Known {
    match TokenOf(m.predicates, relation) case None => Missing case Some(token) => Value(token)
  }

  function KnownPredicate(m: Image, term: PredicateTerm, b: Binding): Known {
    match term
    case PredicateConstant(relation) => PredicateForQuery(m, relation)
    case PredicateVariable(name) =>
      if name !in b then Unbound
      else match b[name].AsPredicate() case None => Missing case Some(relation) => PredicateForQuery(m, relation)
  }

  datatype Section = SPO | POS | OSP

  function EntriesIn(m: Image, section: Section): seq<IndexEntry> {
    match section case SPO => m.spo case POS => m.pos case OSP => m.osp
  }

  datatype Spec = All | Empty | Range(section: Section, key: seq<nat>)

  function SpecFor(m: Image, p: Pattern, b: Binding): (spec: Spec)
    ensures spec.Range? ==> 0 < |spec.key| <= 3
  {
    match (KnownAtom(m, p.subject, b), KnownPredicate(m, p.relation, b), KnownAtom(m, p.target, b))
    case (Missing, _, _) => Empty
    case (_, Missing, _) => Empty
    case (_, _, Missing) => Empty
    case (Value(s), Value(r), Value(t)) => Range(SPO, [s, r, t])
    case (Value(s), Value(r), Unbound) => Range(SPO, [s, r])
    case (Value(s), Unbound, Value(t)) => Range(OSP, [t, s])
    case (Unbound, Value(r), Value(t)) => Range(POS, [r, t])
    case (Value(s), Unbound, Unbound) => Range(SPO, [s])
    case (Unbound, Value(r), Unbound) => Range(POS, [r])
    case (Unbound, Unbound, Value(t)) => Range(OSP, [t])
    case (Unbound, Unbound, Unbound) => All
  }

  function RecordsIn(entries: seq<IndexEntry>): (r: seq<nat>)
    ensures |r| == |entries| && forall i :: 0 <= i < |r| ==> r[i] == entries[i].record
  {
    seq(|entries|, i requires 0 <= i < |entries| => entries[i].record)
  }

  function CandidateRecords(m: Image, p: Pattern, b: Binding): (r: seq<nat>)
    requires Sound(m)
    ensures forall i :: 0 <= i < |r| ==> r[i] < |m.records|
  {
    match SpecFor(m, p, b)
    case All => m.active
    case Empty => []
    case Range(section, key) =>
      var (lower, upper) := RangeOf(EntriesIn(m, section), key);
      if lower <= upper then RecordsIn(EntriesIn(m, section)[lower..upper]) else []
  }

  function EntriesOf(m: Image, records: seq<nat>): (r: seq<Entry>)
    requires Sound(m) && forall i :: 0 <= i < |records| ==> records[i] < |m.records|
    ensures |r| == |records| && forall i :: 0 <= i < |r| ==> r[i] == EntryOf(m, records[i])
  {
    seq(|records|, i requires 0 <= i < |records| => EntryOf(m, records[i]))
  }

  function Found(m: Image, p: Pattern, b: Binding): seq<Entry>
    requires Sound(m)
  {
    EntriesOf(m, CandidateRecords(m, p, b))
  }

  /** The planner's count, taken from the specification without listing the candidates. */
  function CandidateCount(m: Image, p: Pattern, b: Binding): int {
    match SpecFor(m, p, b)
    case All => |m.active|
    case Empty => 0
    case Range(section, key) =>
      var (lower, upper) := RangeOf(EntriesIn(m, section), key);
      upper - lower
  }

  ghost function Mapped(m: Image): Candidates
    requires Sound(m)
  {
    (p, b) => Found(m, p, b)
  }

  ghost predicate Indexed(m: Image) { SortedByKey(m.spo) && SortedByKey(m.pos) && SortedByKey(m.osp) }

  /** The planner's count, read off the specification, is the number of candidates. */
  lemma CountIsLength(m: Image, p: Pattern, b: Binding)
    requires Sound(m) && Indexed(m)
    ensures CandidateCount(m, p, b) == |Found(m, p, b)|
  {
    if SpecFor(m, p, b).Range? {
      KeysAreSmall(m, p, b);
    }
    hide SortedByKey, KnownAtom, KnownPredicate, EntryOf, RangeOf, KeyOf, RecordFits, Sound, SpecFor;
    match SpecFor(m, p, b)
    case All =>
    case Empty =>
    case Range(section, key) => RangeIsExact(EntriesIn(m, section), key);
  }

  /** Every key that a query looks for stays below 2^64 - 1, so its range can be closed. */
  lemma KeysAreSmall(m: Image, p: Pattern, b: Binding)
    requires Sound(m) && SpecFor(m, p, b).Range?
    ensures forall i :: 0 <= i < |SpecFor(m, p, b).key| ==> SpecFor(m, p, b).key[i] < U64 - 1
  {
  }

  method QueryImage(m: Image, ps: seq<Pattern>, o: Options) returns (result: QueryResult)
    requires Sound(m) && Indexed(m)
    ensures result == QueryOf(Mapped(m), ps, o)
  {
    hide Found, CandidateCount, Sound, Indexed;
    forall p: Pattern, b: Binding ensures CandidateCount(m, p, b) == |Found(m, p, b)| {
      CountIsLength(m, p, b);
    }
    result := RunQuery((p, b) requires Sound(m) => Found(m, p, b), (p, b) => CandidateCount(m, p, b), Mapped(m), ps, o);
  }

  // ---- What a snapshot stands for ----

  /** Entries with equal keys come in record order. */
  ghost predicate TiesRise(records: seq<MappedRecord>, index: seq<IndexEntry>) {
    forall i, j :: 0 <= i < j < |index| && KeyOf(index[i]) == KeyOf(index[j])
                   && index[i].record < |records| && index[j].record < |records| ==>
      records[index[i].record].originalId <= records[index[j].record].originalId
  }

  ghost predicate IsIndexOf(m: Image, section: Section)
    requires Sound(m)
  {
    && SortedByKey(EntriesIn(m, section)) && TiesRise(m.records, EntriesIn(m, section))
    && multiset(RecordsIn(EntriesIn(m, section))) == multiset(m.active)
    && forall e :: e in EntriesIn(m, section) ==> e.record < |m.records| && KeyOf(e) == SectionKey(m.records[e.record], section)
  }

  function SectionKey(r: MappedRecord, section: Section): (key: seq<nat>)
    ensures |key| == 3
  {
    match section
    case SPO => [r.subject, r.relation, r.target]
    case POS => [r.relation, r.target, r.subject]
    case OSP => [r.target, r.subject, r.relation]
  }

  /** The image holds exactly these stacks: a table entry and a chain for every slot, and the tops, in record order,
      as active records in all three indexes. */
  ghost predicate Represents(m: Image, stacks: Stacks) {
    && Sound(m) && Strict(m.slots) && Strict(m.predicates) && Strict(m.literals)
    && (forall slot :: slot in m.slots <==> slot in stacks)
    && (forall t :: 0 <= t < |m.slots| ==> m.slots[t] in stacks && Chain(m, m.heads[t]) == stacks[m.slots[t]])
    && (forall r :: r in m.active <==> r in m.heads && r != NONE)
    && Rising(EntriesOf(m, m.active))
    && IsIndexOf(m, SPO) && IsIndexOf(m, POS) && IsIndexOf(m, OSP)
  }

  lemma HeadOfSlot(m: Image, stacks: Stacks, slot: Name)
    requires Represents(m, stacks)
    ensures Chain(m, HeadFor(m, slot)) == if slot in stacks then stacks[slot] else []
  {
    TokenIsPlace(m.slots, slot);
  }

  /** A snapshot resolves every slot as the stacks do. */
  lemma ResolvesAlike(m: Image, stacks: Stacks, slot: Name)
    requires Represents(m, stacks)
    ensures Resolve(m, slot) == ResolveIn(stacks, slot)
  {
    hide IsIndexOf, Strict, EntryOf, HeadFor, RecordFits, Chain;
    HeadOfSlot(m, stacks, slot);
    var head := HeadFor(m, slot);
    if head == NONE {
      NoneIsEmpty(m);
    } else {
      TopOfChain(m, head);
    }
  }

  /** And lists the same definitions. */
  method DefinesAlike(m: Image, ghost stacks: Stacks, slot: Name) returns (facts: seq<Fact>)
    requires Represents(m, stacks)
    ensures facts == DefinitionsIn(stacks, slot)
  {
    HeadOfSlot(m, stacks, slot);
    facts := Definitions(m, slot);
  }

  // ---- Active entries ----

  lemma TopOfChain(m: Image, i: nat)
    requires Sound(m) && i < |m.records|
    ensures Chain(m, i) != [] && Chain(m, i)[|Chain(m, i)| - 1] == EntryOf(m, i)
  {
    assert RecordFits(m, i);
  }

  lemma ActiveAreTops(m: Image, stacks: Stacks)
    requires Represents(m, stacks)
    ensures forall e :: e in EntriesOf(m, m.active) <==> e in Tops(stacks)
  {
    hide IsIndexOf, Strict, Chain, EntryOf, Rising, RecordFits;
    var es := EntriesOf(m, m.active);
    forall e | e in es ensures e in Tops(stacks) {
      var k :| 0 <= k < |es| && es[k] == e;
      var r := m.active[k];
      assert r in m.active;
      var t :| 0 <= t < |m.heads| && m.heads[t] == r;
      TopOfChain(m, r);
    }
    forall e | e in Tops(stacks) ensures e in es {
      var slot :| slot in stacks && stacks[slot] != [] && stacks[slot][|stacks[slot]| - 1] == e;
      assert slot in m.slots;
      var t :| 0 <= t < |m.slots| && m.slots[t] == slot;
      var r := m.heads[t];
      NoneIsEmpty(m);
      TopOfChain(m, r);
      assert r in m.active;
      var k :| 0 <= k < |m.active| && m.active[k] == r;
      assert es[k] == e;
    }
  }

  lemma NoneIsEmpty(m: Image)
    requires Sound(m)
    ensures Chain(m, NONE) == []
  {
  }

  /** The active records, read back, are the projection's active facts in the projection's order. */
  lemma ActiveIsProjected(m: Image, stacks: Stacks, active: seq<Entry>)
    requires Represents(m, stacks)
    requires Rising(active) && forall e :: e in active <==> e in Tops(stacks)
    ensures EntriesOf(m, m.active) == active
  {
    ActiveAreTops(m, stacks);
    RisingUnique(EntriesOf(m, m.active), active);
  }

  // ---- Counting entries ----

  ghost function EntryBag(m: Image): nat -> multiset<Entry>
    requires Sound(m)
  {
    (i: nat) => if i < |m.records| then multiset{EntryOf(m, i)} else multiset{}
  }

  lemma {:induction false} EntriesAreSum(m: Image, a: seq<nat>)
    requires Sound(m) && forall i :: 0 <= i < |a| ==> a[i] < |m.records|
    ensures multiset(EntriesOf(m, a)) == SumSeq(a, EntryBag(m))
    decreases |a|
  {
    hide Sound, EntryOf;
    if a != [] {
      EntriesAreSum(m, a[1..]);
      assert EntriesOf(m, a) == [EntryOf(m, a[0])] + EntriesOf(m, a[1..]);
    }
  }

  lemma PermutedEntries(m: Image, a: seq<nat>, b: seq<nat>)
    requires Sound(m) && multiset(a) == multiset(b)
    requires forall i :: 0 <= i < |a| ==> a[i] < |m.records|
    requires forall i :: 0 <= i < |b| ==> b[i] < |m.records|
    ensures multiset(EntriesOf(m, a)) == multiset(EntriesOf(m, b))
  {
    EntriesAreSum(m, a);
    EntriesAreSum(m, b);
    SumPermutation(a, b, EntryBag(m));
  }

  /** Cutting a range out keeps every occurrence of an entry that does not occur outside it. */
  lemma CutKeepsCount(m: Image, records: seq<nat>, lower: nat, upper: nat, e: Entry)
    requires Sound(m) && lower <= upper <= |records|
    requires forall i :: 0 <= i < |records| ==> records[i] < |m.records|
    requires forall i :: 0 <= i < |records| && EntryOf(m, records[i]) == e ==> lower <= i < upper
    ensures multiset(EntriesOf(m, records[lower..upper]))[e] == multiset(EntriesOf(m, records))[e]
  {
    hide Sound, EntryOf;
    var es := EntriesOf(m, records);
    assert es == es[..lower] + es[lower..upper] + es[upper..];
    assert EntriesOf(m, records[lower..upper]) == es[lower..upper];
    assert e !in es[..lower] by {
      assert forall i :: 0 <= i < lower ==> es[..lower][i] == EntryOf(m, records[i]);
    }
    assert e !in es[upper..] by {
      assert forall i :: 0 <= i < |es| - upper ==> es[upper..][i] == EntryOf(m, records[upper + i]);
    }
    assert multiset(es[..lower])[e] == 0 && multiset(es[upper..])[e] == 0;
  }

  // ---- What a match says about cells ----

  lemma CellReadsBack(m: Image, cell: nat)
    requires CellFits(m, cell) && Strict(m.literals)
    ensures CellForQuery(m, AtomAt(m, cell)) == Value(cell)
  {
    if cell >= LITERAL_BASE {
      TokenIsPlace(m.literals, m.literals[cell - LITERAL_BASE]);
    }
  }

  lemma KnownAtomFits(m: Image, term: Term, atom: Atom, b: Binding, r: Binding)
    requires Extends(r, b) && Denotes(term, atom, r)
    ensures KnownAtom(m, term, b) in {Unbound, CellForQuery(m, atom)}
  {
    ExtendsPointwise(r, b);
  }

  lemma KnownPredicateFits(m: Image, term: PredicateTerm, relation: Name, b: Binding, r: Binding)
    requires Extends(r, b) && DenotesPredicate(term, relation, r)
    ensures KnownPredicate(m, term, b) in {Unbound, PredicateForQuery(m, relation)}
  {
    ExtendsPointwise(r, b);
  }

  /** If a pattern can still unify with a record, then whatever is known of the pattern is the record's own cells. */
  lemma MatchKnowsCells(m: Image, p: Pattern, b: Binding, i: nat)
    requires Sound(m) && Strict(m.predicates) && Strict(m.literals) && i < |m.records|
    requires UnifyPattern(p, EntryOf(m, i).fact, b).Some?
    ensures KnownAtom(m, p.subject, b) in {Unbound, Value(m.records[i].subject)}
    ensures KnownPredicate(m, p.relation, b) in {Unbound, Value(m.records[i].relation)}
    ensures KnownAtom(m, p.target, b) in {Unbound, Value(m.records[i].target)}
  {
    hide UnifyPattern, KnownAtom, KnownPredicate, CellForQuery, AtomAt, Strict, Denotes, DenotesPredicate, Extends;
    assert RecordFits(m, i);
    var fact, r := EntryOf(m, i).fact, UnifyPattern(p, EntryOf(m, i).fact, b).value;
    UnifyIsLeastInstance(p, fact, b);
    CellReadsBack(m, m.records[i].subject);
    CellReadsBack(m, m.records[i].target);
    TokenIsPlace(m.predicates, m.predicates[m.records[i].relation]);
    KnownAtomFits(m, p.subject, fact.subject, b, r);
    KnownAtomFits(m, p.target, fact.target, b, r);
    KnownPredicateFits(m, p.relation, fact.relation, b, r);
  }

  lemma SmallCells(m: Image, i: nat, section: Section)
    requires Sound(m) && i < |m.records|
    ensures forall k :: 0 <= k < 3 ==> SectionKey(m.records[i], section)[k] < U64 - 1
  {
    assert RecordFits(m, i);
  }

  /** The specification then covers every record with the same entry. */
  lemma SpecCovers(m: Image, p: Pattern, b: Binding, i: nat)
    requires Sound(m) && Strict(m.predicates) && Strict(m.literals) && i < |m.records|
    requires UnifyPattern(p, EntryOf(m, i).fact, b).Some?
    ensures !SpecFor(m, p, b).Empty?
    ensures SpecFor(m, p, b).Range? ==>
      var Range(section, key) := SpecFor(m, p, b);
      SectionKey(m.records[i], section)[..|key|] == key && key[|key| - 1] < U64 - 1
  {
    hide UnifyPattern, KnownAtom, KnownPredicate;
    MatchKnowsCells(m, p, b, i);
    SmallCells(m, i, SPO);
    SmallCells(m, i, POS);
    SmallCells(m, i, OSP);
  }

  // ---- Faithfulness ----

  lemma RangeKeepsEntry(m: Image, section: Section, key: seq<nat>, e: Entry)
    requires Sound(m) && IsIndexOf(m, section) && 0 < |key| <= 3 && key[|key| - 1] < U64 - 1
    requires forall i :: 0 <= i < |m.records| && EntryOf(m, i) == e ==>
      SectionKey(m.records[i], section)[..|key|] == key
    ensures var (lower, upper) := RangeOf(EntriesIn(m, section), key);
      && lower <= upper
      && multiset(EntriesOf(m, RecordsIn(EntriesIn(m, section)[lower..upper])))[e] == multiset(EntriesOf(m, m.active))[e]
  {
    hide EntryOf, RangeOf, SortedByKey, TiesRise, RecordFits, SectionKey;
    var entries := EntriesIn(m, section);
    var records := RecordsIn(entries);
    RangeIsExact(entries, key);
    var (lower, upper) := RangeOf(entries, key);
    PermutedEntries(m, records, m.active);
    forall i | 0 <= i < |records| && EntryOf(m, records[i]) == e ensures lower <= i < upper {
      assert entries[i] in entries;
    }
    CutKeepsCount(m, records, lower, upper, e);
    assert RecordsIn(entries[lower..upper]) == records[lower..upper];
  }

  lemma FoundCounts(m: Image, stacks: Stacks, p: Pattern, b: Binding, e: Entry)
    requires Represents(m, stacks) && UnifyPattern(p, e.fact, b).Some?
    ensures multiset(Found(m, p, b))[e] == multiset(EntriesOf(m, m.active))[e]
  {
    hide UnifyPattern, EntryOf, SpecFor, RangeOf, IsIndexOf, Strict, Rising, Chain, Sound;
    if exists i :: 0 <= i < |m.records| && EntryOf(m, i) == e {
      var i :| 0 <= i < |m.records| && EntryOf(m, i) == e;
      SpecCovers(m, p, b, i);
      match SpecFor(m, p, b) {
        case All =>
        case Range(section, key) =>
          forall j | 0 <= j < |m.records| && EntryOf(m, j) == e ensures SectionKey(m.records[j], section)[..|key|] == key {
            SpecCovers(m, p, b, j);
          }
          RangeKeepsEntry(m, section, key, e);
      }
    } else {
      NowhereFound(m, CandidateRecords(m, p, b), e);
      ActiveInRange(m);
      NowhereFound(m, m.active, e);
    }
  }

  lemma ActiveInRange(m: Image)
    requires Sound(m)
    ensures forall i :: 0 <= i < |m.active| ==> m.active[i] < |m.records|
  {
  }

  lemma NowhereFound(m: Image, records: seq<nat>, e: Entry)
    requires Sound(m) && forall i :: 0 <= i < |records| ==> records[i] < |m.records|
    requires forall i :: 0 <= i < |m.records| ==> EntryOf(m, i) != e
    ensures multiset(EntriesOf(m, records))[e] == 0
  {
    hide Sound, EntryOf;
    var es := EntriesOf(m, records);
    assert e !in es;
    assert e !in multiset(es);
  }

  /** The mapped lookup finds every active fact that can still unify, exactly as often as it is active. */
  lemma MappedIsFaithful(m: Image, stacks: Stacks)
    requires Represents(m, stacks)
    ensures Faithful(Mapped(m), EntriesOf(m, m.active))
  {
    hide Represents, Found, UnifyPattern;
    RepresentsSoundly(m, stacks);
    ActiveInRange(m);
    forall p: Pattern, b: Binding, e: Entry | UnifyPattern(p, e.fact, b).Some?
      ensures multiset(Mapped(m)(p, b))[e] == multiset(EntriesOf(m, m.active))[e]
    {
      FoundCounts(m, stacks, p, b, e);
    }
  }

  lemma RepresentsSoundly(m: Image, stacks: Stacks)
    requires Represents(m, stacks)
    ensures Sound(m) && Indexed(m)
  {
  }

  /** Without a limit, every query over the snapshot returns the projection's bindings, row by row, whatever plan
      either follows; with planning and deduplication off the rows agree in full. */
  lemma QueriesAlike(m: Image, stacks: Stacks, active: seq<Entry>, ps: seq<Pattern>, o: Options)
    requires Represents(m, stacks)
    requires Rising(active) && forall e :: e in active <==> e in Tops(stacks)
    requires o.limit.None?
    ensures Sound(m)
    ensures RowBindings(QueryOf(Mapped(m), ps, o).rows) == RowBindings(QueryOf(SelectFrom(active), ps, o).rows)
    ensures !o.optimize && !o.distinct ==> QueryOf(Mapped(m), ps, o).rows == QueryOf(SelectFrom(active), ps, o).rows
  {
    hide Represents, Tops, Rising, QueryOf, Faithful;
    RepresentsSoundly(m, stacks);
    ActiveIsProjected(m, stacks, active);
    MappedIsFaithful(m, stacks);
    SelectIsFaithful(active);
    EnginesAgree(Mapped(m), SelectFrom(active), active, ps, o, o);
    if !o.optimize && !o.distinct {
      FixedPlanEnginesAgree(Mapped(m), SelectFrom(active), active, ps, o);
    }
  }
}
