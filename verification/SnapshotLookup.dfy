/** Which candidates a snapshot finds for a pattern, and in which order: the selection of the active facts by the known
    parts, by rising key of the index that the known parts lead. */
module SnapshotLookup {
  import opened Words
  import opened Facts
  import opened Store
  import opened Query
  import opened QueryLaws
  import opened Projection
  import opened SortedIndex
  import opened Snapshot
  import L = RowLaws

  /** No variable bound to a predicate stands for an atom, and none bound to an atom for a predicate. */
  ghost predicate Proper(p: Pattern, b: Binding) {
    && (p.subject.VariableTerm? && p.subject.name in b ==> !b[p.subject.name].BoundPredicate?)
    && (p.relation.PredicateVariable? && p.relation.name in b ==> b[p.relation.name].BoundPredicate?)
    && (p.target.VariableTerm? && p.target.name in b ==> !b[p.target.name].BoundPredicate?)
  }

  // ---- Cells and what they stand for ----

  lemma CellIsAtom(m: Image, atom: Atom, cell: nat)
    requires CellFits(m, cell) && Strict(m.literals)
    ensures CellForQuery(m, atom) == Value(cell) <==> atom == AtomAt(m, cell)
  {
    hide Strict, TokenOf;
    CellReadsBack(m, cell);
    if atom.Literal? {
      TokenIsPlace(m.literals, atom.text);
    }
  }

  lemma TokenIsRelation(m: Image, relation: Name, token: nat)
    requires token < |m.predicates| && Strict(m.predicates)
    ensures PredicateForQuery(m, relation) == Value(token) <==> relation == m.predicates[token]
  {
    hide Strict, TokenOf;
    TokenIsPlace(m.predicates, relation);
  }

  /** A pattern agrees with a record on its known parts exactly when each known cell is the record's. */
  lemma AgreesByCells(m: Image, p: Pattern, b: Binding, i: nat)
    requires Sound(m) && Strict(m.predicates) && Strict(m.literals) && i < |m.records| && Proper(p, b)
    ensures Agrees(p, b, EntryOf(m, i).fact)
       <==> && KnownAtom(m, p.subject, b) in {Unbound, Value(m.records[i].subject)}
            && KnownPredicate(m, p.relation, b) in {Unbound, Value(m.records[i].relation)}
            && KnownAtom(m, p.target, b) in {Unbound, Value(m.records[i].target)}
  {
    hide CellForQuery, PredicateForQuery, AtomAt, Strict;
    assert RecordFits(m, i);
    var r := m.records[i];
    if ResolvedAtom(p.subject, b).Some? {
      CellIsAtom(m, ResolvedAtom(p.subject, b).value, r.subject);
    }
    if ResolvedAtom(p.target, b).Some? {
      CellIsAtom(m, ResolvedAtom(p.target, b).value, r.target);
    }
    if ResolvedPredicate(p.relation, b).Some? {
      TokenIsRelation(m, ResolvedPredicate(p.relation, b).value, r.relation);
    }
    KnownCells(m, p.subject, b);
    KnownCells(m, p.target, b);
    KnownToken(m, p.relation, b);
  }

  lemma KnownCells(m: Image, term: Term, b: Binding)
    requires term.VariableTerm? && term.name in b ==> !b[term.name].BoundPredicate?
    ensures match ResolvedAtom(term, b)
      case None => KnownAtom(m, term, b) == Unbound
      case Some(atom) => KnownAtom(m, term, b) == CellForQuery(m, atom) && !CellForQuery(m, atom).Unbound?
  {
  }

  lemma KnownToken(m: Image, term: PredicateTerm, b: Binding)
    requires term.PredicateVariable? && term.name in b ==> b[term.name].BoundPredicate?
    ensures match ResolvedPredicate(term, b)
      case None => KnownPredicate(m, term, b) == Unbound
      case Some(relation) => KnownPredicate(m, term, b) == PredicateForQuery(m, relation) && !PredicateForQuery(m, relation).Unbound?
  {
  }

  /** The specification covers exactly the records that agree. */
  ghost predicate Covered(m: Image, spec: Spec, i: nat)
    requires i < |m.records|
  {
    match spec
    case All => true
    case Empty => false
    case Range(section, key) => |key| <= 3 && SectionKey(m.records[i], section)[..|key|] == key
  }

  lemma CoveredIsAgreement(m: Image, p: Pattern, b: Binding, i: nat)
    requires Sound(m) && Strict(m.predicates) && Strict(m.literals) && i < |m.records| && Proper(p, b)
    ensures Agrees(p, b, EntryOf(m, i).fact) <==> Covered(m, SpecFor(m, p, b), i)
  {
    hide Agrees, KnownAtom, KnownPredicate, Sound;
    AgreesByCells(m, p, b, i);
    match SpecFor(m, p, b)
    case All =>
    case Empty =>
    case Range(section, key) => PrefixIs(SectionKey(m.records[i], section), key);
  }

  lemma PrefixIs(full: seq<nat>, key: seq<nat>)
    requires |full| == 3 && |key| <= 3
    ensures full[..|key|] == key
       <==> (|key| > 0 ==> full[0] == key[0]) && (|key| > 1 ==> full[1] == key[1]) && (|key| > 2 ==> full[2] == key[2])
  {
  }

  // ---- The bag of candidates ----

  lemma {:induction false} SelectCounts(active: seq<Entry>, p: Pattern, b: Binding, e: Entry)
    ensures multiset(Select(active, p, b))[e] == if Agrees(p, b, e.fact) then multiset(active)[e] else 0
    decreases |active|
  {
    if active != [] {
      hide Agrees;
      SelectCounts(active[1..], p, b, e);
      assert active == [active[0]] + active[1..];
      assert Select(active, p, b)
          == (if Agrees(p, b, active[0].fact) then [active[0]] else []) + Select(active[1..], p, b);
    }
  }

  /** What lies in the range of a key has the key. */
  lemma RangeHolds(m: Image, section: Section, key: seq<nat>, i: nat)
    requires Sound(m) && IsIndexOf(m, section) && 0 < |key| <= 3 && key[|key| - 1] < U64 - 1
    requires RangeOf(EntriesIn(m, section), key).0 <= i < RangeOf(EntriesIn(m, section), key).1
    ensures var e := EntriesIn(m, section)[i];
      && e.record < |m.records| && KeyOf(e) == SectionKey(m.records[e.record], section)
      && SectionKey(m.records[e.record], section)[..|key|] == key
  {
    hide Sound, RangeOf, SortedByKey, TiesRise, SectionKey, RecordsIn;
    var entries := EntriesIn(m, section);
    RangeIsExact(entries, key);
    assert entries[i] in entries;
  }

  /** The candidates of a range specification are the records of its range, in index order. */
  lemma RangeCandidates(m: Image, p: Pattern, b: Binding)
    requires Sound(m) && Indexed(m) && SpecFor(m, p, b).Range?
    ensures var Range(section, key) := SpecFor(m, p, b);
      var (lower, upper) := RangeOf(EntriesIn(m, section), key);
      && key[|key| - 1] < U64 - 1 && lower <= upper
      && CandidateRecords(m, p, b) == RecordsIn(EntriesIn(m, section)[lower..upper])
  {
    KeysAreSmall(m, p, b);
    hide Sound, RangeOf, SortedByKey, SpecFor, RecordsIn;
    var Range(section, key) := SpecFor(m, p, b);
    RangeIsExact(EntriesIn(m, section), key);
  }

  lemma IndexesOf(m: Image, stacks: Stacks, section: Section)
    requires Represents(m, stacks)
    ensures Sound(m) && Indexed(m) && IsIndexOf(m, section) && Strict(m.predicates) && Strict(m.literals)
  {
    hide Sound, SortedByKey, Strict, Chain, Rising;
  }

  lemma CoveredInRange(m: Image, stacks: Stacks, p: Pattern, b: Binding, k: nat)
    requires Represents(m, stacks) && Sound(m) && Indexed(m) && SpecFor(m, p, b).Range? && k < |CandidateRecords(m, p, b)|
    ensures var Range(section, key) := SpecFor(m, p, b);
      var i := CandidateRecords(m, p, b)[k];
      i < |m.records| && SectionKey(m.records[i], section)[..|key|] == key
  {
    hide *;
    CandidateAt(m, p, b, k);
    var Range(section, key) := SpecFor(m, p, b);
    IndexesOf(m, stacks, section);
    RangeHolds(m, section, key, RangeOf(EntriesIn(m, section), key).0 + k);
  }

  lemma CandidatesAreCovered(m: Image, stacks: Stacks, p: Pattern, b: Binding, k: nat)
    requires Represents(m, stacks) && Sound(m) && k < |CandidateRecords(m, p, b)|
    ensures CandidateRecords(m, p, b)[k] < |m.records| && Covered(m, SpecFor(m, p, b), CandidateRecords(m, p, b)[k])
  {
    IndexesOf(m, stacks, SPO);
    ActiveInRange(m);
    hide SpecFor, Represents, IsIndexOf, Indexed, Sound, RangeOf;
    if SpecFor(m, p, b).Range? {
      CoveredInRange(m, stacks, p, b, k);
    }
  }

  lemma AgreeingIsFound(m: Image, stacks: Stacks, p: Pattern, b: Binding, e: Entry)
    requires Represents(m, stacks) && Sound(m) && Proper(p, b) && Agrees(p, b, e.fact)
    ensures multiset(Found(m, p, b))[e] == multiset(EntriesOf(m, m.active))[e]
  {
    IndexesOf(m, stacks, SPO);
    ActiveInRange(m);
    hide Agrees, EntryOf, SpecFor, RangeOf, IsIndexOf, Represents, Sound, Indexed, EntriesOf, Strict;
    if exists i :: 0 <= i < |m.records| && EntryOf(m, i) == e {
      forall j | 0 <= j < |m.records| && EntryOf(m, j) == e ensures Covered(m, SpecFor(m, p, b), j) {
        CoveredIsAgreement(m, p, b, j);
      }
      match SpecFor(m, p, b) {
        case All =>
        case Empty => assert false;
        case Range(section, key) =>
          RangeCandidates(m, p, b);
          IndexesOf(m, stacks, section);
          hide CandidateRecords;
          RangeKeepsEntry(m, section, key, e);
      }
    } else {
      NowhereFound(m, CandidateRecords(m, p, b), e);
      NowhereFound(m, m.active, e);
    }
  }

  lemma FoundAgrees(m: Image, stacks: Stacks, p: Pattern, b: Binding, e: Entry)
    requires Represents(m, stacks) && Proper(p, b) && e in Found(m, p, b)
    ensures Agrees(p, b, e.fact)
  {
    hide Agrees, EntryOf, SpecFor, RangeOf, IsIndexOf, Strict, Rising, Chain, CandidateRecords, Sound;
    RepresentsSoundly(m, stacks);
    var k :| 0 <= k < |Found(m, p, b)| && Found(m, p, b)[k] == e;
    CandidatesAreCovered(m, stacks, p, b, k);
    CoveredIsAgreement(m, p, b, CandidateRecords(m, p, b)[k]);
  }

  /** The candidates are the selection from the active facts by the known parts, each as often as it is active. */
  lemma FoundIsSelection(m: Image, stacks: Stacks, p: Pattern, b: Binding)
    requires Represents(m, stacks) && Proper(p, b)
    ensures multiset(Found(m, p, b)) == multiset(Select(EntriesOf(m, m.active), p, b))
  {
    hide Represents, Agrees, Found, Select, EntriesOf;
    RepresentsSoundly(m, stacks);
    ActiveInRange(m);
    var active := EntriesOf(m, m.active);
    forall e: Entry ensures multiset(Found(m, p, b))[e] == multiset(Select(active, p, b))[e] {
      SelectCounts(active, p, b, e);
      if Agrees(p, b, e.fact) {
        AgreeingIsFound(m, stacks, p, b, e);
      } else if e in multiset(Found(m, p, b)) {
        assert e in Found(m, p, b);
        FoundAgrees(m, stacks, p, b, e);
      }
    }
  }

  // ---- The order of candidates ----

  predicate IsKnown(term: Term, b: Binding) { term.AtomTerm? || term.name in b }

  predicate IsKnownPredicate(term: PredicateTerm, b: Binding) { term.PredicateConstant? || term.name in b }

  /** The known parts of a pattern are the first ones of the section's key. */
  predicate Leads(section: Section, p: Pattern, b: Binding) {
    var s, r, t := IsKnown(p.subject, b), IsKnownPredicate(p.relation, b), IsKnown(p.target, b);
    match section
    case SPO => s && (r || !t)
    case POS => r && (t || !s)
    case OSP => t && (s || !r)
  }

  /** By rising key, and by rising record id where the keys are equal. */
  ghost predicate InKeyOrder(m: Image, section: Section, x: nat, y: nat)
    requires x < |m.records| && y < |m.records|
  {
    && KeyLe(SectionKey(m.records[x], section), SectionKey(m.records[y], section))
    && (SectionKey(m.records[x], section) == SectionKey(m.records[y], section) ==>
          m.records[x].originalId <= m.records[y].originalId)
  }

  lemma SpecUses(m: Image, p: Pattern, b: Binding)
    ensures SpecFor(m, p, b).All? <==>
      !IsKnown(p.subject, b) && !IsKnownPredicate(p.relation, b) && !IsKnown(p.target, b)
    ensures SpecFor(m, p, b).Range? ==>
      && Leads(SpecFor(m, p, b).section, p, b)
      && forall section :: Leads(section, p, b) ==> section == SpecFor(m, p, b).section || |SpecFor(m, p, b).key| == 3
  {
    hide CellForQuery, PredicateForQuery;
    AtomUnbound(m, p.subject, b);
    PredicateUnbound(m, p.relation, b);
    AtomUnbound(m, p.target, b);
    hide KnownAtom, KnownPredicate;
  }

  lemma AtomUnbound(m: Image, term: Term, b: Binding)
    ensures KnownAtom(m, term, b).Unbound? <==> !IsKnown(term, b)
  {
  }

  lemma PredicateUnbound(m: Image, term: PredicateTerm, b: Binding)
    ensures KnownPredicate(m, term, b).Unbound? <==> !IsKnownPredicate(term, b)
  {
  }

  lemma SameCells(x: MappedRecord, y: MappedRecord, a: Section, b: Section)
    ensures SectionKey(x, a) == SectionKey(y, a) ==> SectionKey(x, b) == SectionKey(y, b)
  {
    if SectionKey(x, a) == SectionKey(y, a) {
      assert SectionKey(x, a)[0] == SectionKey(y, a)[0] && SectionKey(x, a)[1] == SectionKey(y, a)[1];
      assert SectionKey(x, a)[2] == SectionKey(y, a)[2];
    }
  }

  /** Where nothing is known the candidates are the active records in record order; otherwise they rise in the order of
      the section that the known parts lead. */
  lemma FoundInOrder(m: Image, stacks: Stacks, p: Pattern, b: Binding)
    requires Represents(m, stacks)
    ensures Sound(m) && Found(m, p, b) == EntriesOf(m, CandidateRecords(m, p, b))
    ensures !IsKnown(p.subject, b) && !IsKnownPredicate(p.relation, b) && !IsKnown(p.target, b) ==>
      CandidateRecords(m, p, b) == m.active
    ensures forall section, i, j :: Leads(section, p, b) && 0 <= i < j < |CandidateRecords(m, p, b)| ==>
      InKeyOrder(m, section, CandidateRecords(m, p, b)[i], CandidateRecords(m, p, b)[j])
  {
    IndexesOf(m, stacks, SPO);
    SpecUses(m, p, b);
    hide SpecFor, RangeOf, Represents, IsIndexOf, Indexed, Sound, SectionKey, KeyOf, Leads, InKeyOrder;
    var rs := CandidateRecords(m, p, b);
    forall section, i, j | Leads(section, p, b) && 0 <= i < j < |rs| ensures InKeyOrder(m, section, rs[i], rs[j]) {
      if SpecFor(m, p, b).Range? {
        IndexesOf(m, stacks, SpecFor(m, p, b).section);
        PairInOrder(m, p, b, section, i, j);
      } else {
        NothingLeads(p, b, section);
      }
    }
  }

  lemma NothingLeads(p: Pattern, b: Binding, section: Section)
    requires Leads(section, p, b)
    ensures IsKnown(p.subject, b) || IsKnownPredicate(p.relation, b) || IsKnown(p.target, b)
  {
  }

  lemma EntriesInOrder(m: Image, section: Section, i: nat, j: nat)
    requires Sound(m) && IsIndexOf(m, section) && i < j < |EntriesIn(m, section)|
    requires var x, y := EntriesIn(m, section)[i], EntriesIn(m, section)[j];
      && x.record < |m.records| && KeyOf(x) == SectionKey(m.records[x.record], section)
      && y.record < |m.records| && KeyOf(y) == SectionKey(m.records[y.record], section)
    ensures InKeyOrder(m, section, EntriesIn(m, section)[i].record, EntriesIn(m, section)[j].record)
  {
    hide Sound, SectionKey, KeyOf, KeyLe, RecordsIn;
  }

  /** Records with one and the same triple are in order for every section if they are for one. */
  lemma TripleInOrder(m: Image, used: Section, section: Section, x: nat, y: nat)
    requires x < |m.records| && y < |m.records| && InKeyOrder(m, used, x, y)
    requires SectionKey(m.records[x], used) == SectionKey(m.records[y], used)
    ensures InKeyOrder(m, section, x, y)
  {
    SameCells(m.records[x], m.records[y], used, section);
    hide SectionKey, KeyLe;
    KeyOrder(SectionKey(m.records[x], section), SectionKey(m.records[y], section));
  }

  lemma RangeInOrder(m: Image, used: Section, section: Section, key: seq<nat>, i: nat, j: nat)
    requires Sound(m) && IsIndexOf(m, used) && 0 < |key| <= 3 && key[|key| - 1] < U64 - 1
    requires RangeOf(EntriesIn(m, used), key).0 <= i < j < RangeOf(EntriesIn(m, used), key).1
    requires section == used || |key| == 3
    ensures EntriesIn(m, used)[i].record < |m.records| && EntriesIn(m, used)[j].record < |m.records|
    ensures InKeyOrder(m, section, EntriesIn(m, used)[i].record, EntriesIn(m, used)[j].record)
  {
    hide RangeOf, Sound, SectionKey, KeyOf, IsIndexOf, InKeyOrder, EntriesIn;
    RangeHolds(m, used, key, i);
    RangeHolds(m, used, key, j);
    EntriesInOrder(m, used, i, j);
    var x, y := EntriesIn(m, used)[i].record, EntriesIn(m, used)[j].record;
    if |key| == 3 {
      var a, c := SectionKey(m.records[x], used), SectionKey(m.records[y], used);
      assert a[..3] == a && c[..3] == c;
      TripleInOrder(m, used, section, x, y);
    }
  }

  /** Where a candidate stands in its index. */
  lemma CandidateAt(m: Image, p: Pattern, b: Binding, k: nat)
    requires Sound(m) && Indexed(m) && SpecFor(m, p, b).Range? && k < |CandidateRecords(m, p, b)|
    ensures var Range(section, key) := SpecFor(m, p, b);
      var (lower, upper) := RangeOf(EntriesIn(m, section), key);
      && key[|key| - 1] < U64 - 1 && lower + k < upper
      && CandidateRecords(m, p, b)[k] == EntriesIn(m, section)[lower + k].record
  {
    RangeCandidates(m, p, b);
    hide SpecFor, RangeOf, Indexed, Sound, CandidateRecords, EntriesIn;
  }

  lemma PairInOrder(m: Image, p: Pattern, b: Binding, section: Section, i: nat, j: nat)
    requires Sound(m) && Indexed(m) && SpecFor(m, p, b).Range? && IsIndexOf(m, SpecFor(m, p, b).section)
    requires section == SpecFor(m, p, b).section || |SpecFor(m, p, b).key| == 3
    requires i < j < |CandidateRecords(m, p, b)|
    ensures InKeyOrder(m, section, CandidateRecords(m, p, b)[i], CandidateRecords(m, p, b)[j])
  {
    hide *;
    CandidateAt(m, p, b, i);
    CandidateAt(m, p, b, j);
    var Range(used, key) := SpecFor(m, p, b);
    var lower := RangeOf(EntriesIn(m, used), key).0;
    RangeInOrder(m, used, section, key, lower + i, lower + j);
  }

  // ---- What this means for queries ----

  lemma ProperWhenTyped(p: Pattern, ps: seq<Pattern>, b: Binding)
    requires p in ps && L.Typed(b, L.AtomNames(ps), L.PredicateNames(ps))
    ensures Proper(p, b)
  {
    hide L.Typed;
    if ps[0] == p {
      TypedHere(ps, b);
    } else {
      assert p in ps[1..];
      TypedRest(ps, b);
      ProperWhenTyped(p, ps[1..], b);
    }
  }

  lemma TypedHere(ps: seq<Pattern>, b: Binding)
    requires ps != [] && L.Typed(b, L.AtomNames(ps), L.PredicateNames(ps))
    ensures Proper(ps[0], b)
  {
  }

  lemma TypedRest(ps: seq<Pattern>, b: Binding)
    requires ps != [] && L.Typed(b, L.AtomNames(ps), L.PredicateNames(ps))
    ensures L.Typed(b, L.AtomNames(ps[1..]), L.PredicateNames(ps[1..]))
  {
  }

  /** Without planning and without a limit a query over the snapshot looks at as many candidates, emits as many bindings
      and follows the same path as over the projection, as long as no variable stands for an atom in one place and for a
      predicate in another. */
  lemma CountersAlike(m: Image, stacks: Stacks, active: seq<Entry>, ps: seq<Pattern>, o: Options)
    requires Represents(m, stacks) && Rising(active) && forall e :: e in active <==> e in Tops(stacks)
    requires !o.optimize && o.limit.None? && L.AtomNames(ps) !! L.PredicateNames(ps)
    ensures Sound(m)
    ensures var mapped, projected := QueryOf(Mapped(m), ps, o), QueryOf(SelectFrom(active), ps, o);
      && mapped.candidateFacts == projected.candidateFacts && mapped.bindingsEmitted == projected.bindingsEmitted
      && mapped.firstPath == projected.firstPath
  {
    hide Represents, QueryOf, Found, Select, Proper, L.Typed, Tops, Rising;
    RepresentsSoundly(m, stacks);
    ActiveIsProjected(m, stacks, active);
    forall p: Pattern, b: Binding | p in ps && L.Typed(b, L.AtomNames(ps), L.PredicateNames(ps))
      ensures multiset(Mapped(m)(p, b)) == multiset(SelectFrom(active)(p, b))
    {
      ProperWhenTyped(p, ps, b);
      FoundIsSelection(m, stacks, p, b);
    }
    L.CountersAgree(Mapped(m), SelectFrom(active), ps, o);
  }
}
