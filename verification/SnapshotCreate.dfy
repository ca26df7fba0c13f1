/** Building the physical snapshot of a projection. */
module SnapshotCreate {
  import opened Words
  import opened Facts
  import opened Joins
  import opened Orders
  import opened Store
  import opened Projection
  import opened SortedIndex
  import opened Snapshot

  // ---- The strings of a projection ----

  function RelationsIn(stacks: Stacks): set<Name> {
    set slot, i | slot in stacks && 0 <= i < |stacks[slot]| :: stacks[slot][i].fact.relation
  }

  function TextOf(atom: Atom): set<Name> {
    if atom.Literal? then {atom.text} else {}
  }

  function LiteralsIn(stacks: Stacks): set<Name> {
    set slot, i, text | slot in stacks && 0 <= i < |stacks[slot]|
                     && text in TextOf(stacks[slot][i].fact.subject) + TextOf(stacks[slot][i].fact.target) :: text
  }

  /** Entity ids that would be read back as literals cannot be stored. */
  predicate AtomFits(atom: Atom) { atom.Entity? ==> atom.id < LITERAL_BASE }

  predicate EntryFits(e: Entry) { AtomFits(e.fact.subject) && AtomFits(e.fact.target) }

  predicate EntitiesFit(stacks: Stacks) {
    forall slot :: slot in stacks ==> forall i :: 0 <= i < |stacks[slot]| ==> EntryFits(stacks[slot][i])
  }

  /** Record ids are machine words. */
  predicate IdsFit(stacks: Stacks) {
    forall slot :: slot in stacks ==> forall i :: 0 <= i < |stacks[slot]| ==> stacks[slot][i].id < U64
  }

  /** Every entry lies on its own slot's stack. */
  predicate Coherent(stacks: Stacks) {
    forall slot :: slot in stacks ==> forall i :: 0 <= i < |stacks[slot]| ==> stacks[slot][i].slot == slot
  }

  // ---- Records ----

  function CellOf(literals: seq<Name>, atom: Atom): Option<nat> {
    match atom
    case Entity(id) => if id < LITERAL_BASE then Some(id) else None
    case Literal(text) => match TokenOf(literals, text) case None => None case Some(token) => Some(LITERAL_BASE + token)
  }

  lemma CellIsAtom(m: Image, atom: Atom)
    requires CellOf(m.literals, atom).Some?
    ensures CellFits(m, CellOf(m.literals, atom).value) && AtomAt(m, CellOf(m.literals, atom).value) == atom
  {
  }

  /** The image under construction: tables, records and heads, no indexes yet. */
  function Building(slots: seq<Name>, relations: seq<Name>, literals: seq<Name>, records: seq<MappedRecord>,
                    heads: seq<nat>): Image {
    Image(slots, relations, literals, records, heads, [], [], [], [])
  }

  lemma {:induction false} ChainStable(m: Image, m': Image, i: nat)
    requires Sound(m) && Sound(m') && (i == NONE || i < |m.records|)
    requires m.records <= m'.records && m.slots == m'.slots && m.predicates == m'.predicates
    requires m.literals == m'.literals
    ensures i != NONE ==> i < |m'.records|
    ensures Chain(m', i) == Chain(m, i)
    decreases if i == NONE then 0 else i + 1
  {
    if i != NONE {
      assert RecordFits(m, i) && m.records[i] == m'.records[i];
      ChainStable(m, m', m.records[i].previous);
    }
  }

  /** The records, heads and tables so far describe the stacks of the first slots. */
  ghost predicate BuiltTo(m: Image, stacks: Stacks, t: nat) {
    && Sound(m) && t <= |m.slots|
    && (forall k :: 0 <= k < t ==> m.slots[k] in stacks && Chain(m, m.heads[k]) == stacks[m.slots[k]])
    && (forall k :: t <= k < |m.slots| ==> m.heads[k] == NONE)
    && (forall k :: 0 <= k < |m.slots| && m.heads[k] != NONE ==> m.records[m.heads[k]].slot == k)
  }

  function RecordFor(literals: seq<Name>, relations: seq<Name>, token: nat, previous: nat,
                     e: Entry): Option<MappedRecord> {
    match (CellOf(literals, e.fact.subject), TokenOf(relations, e.fact.relation), CellOf(literals, e.fact.target))
    case (Some(subject), Some(relation), Some(target)) => Some(MappedRecord(e.id, token, previous, subject, relation, target))
    case _ => None
  }

  /** Adding a record puts its entry on top of the chain it names as previous, and disturbs no other chain. */
  lemma RecordAdds(m: Image, token: nat, previous: nat, e: Entry)
    requires Sound(m) && token < |m.slots| && e.slot == m.slots[token] && |m.records| < NONE
    requires previous == NONE || previous < |m.records|
    requires RecordFor(m.literals, m.predicates, token, previous, e).Some?
    requires m.active == [] && m.spo == [] && m.pos == [] && m.osp == []
    ensures var m' := m.(records := m.records + [RecordFor(m.literals, m.predicates, token, previous, e).value]);
      && Sound(m') && Chain(m', |m.records|) == Chain(m, previous) + [e]
      && forall i: nat :: i == NONE || i < |m.records| ==> (i == NONE || i < |m'.records|) && Chain(m', i) == Chain(m, i)
  {
    hide TokenOf, CellOf, AtomAt, CellFits;
    var r := RecordFor(m.literals, m.predicates, token, previous, e).value;
    var m' := m.(records := m.records + [r]);
    CellIsAtom(m, e.fact.subject);
    CellIsAtom(m, e.fact.target);
    SameCells(m, m', e.fact.subject);
    SameCells(m, m', e.fact.target);
    forall i | 0 <= i < |m'.records| ensures RecordFits(m', i) {
      if i < |m.records| {
        assert RecordFits(m, i);
        SameFit(m, m', m.records[i].subject);
        SameFit(m, m', m.records[i].target);
      }
    }
    TokenInRange(m.predicates, e.fact.relation);
    assert Sound(m');
    assert EntryOf(m', |m.records|) == e;
    forall i: nat | i == NONE || i < |m.records| ensures Chain(m', i) == Chain(m, i) {
      ChainStable(m, m', i);
    }
  }

  lemma SameFit(m: Image, m': Image, cell: nat)
    requires m.literals == m'.literals
    ensures CellFits(m, cell) <==> CellFits(m', cell)
  {
  }

  lemma SameCells(m: Image, m': Image, atom: Atom)
    requires m.literals == m'.literals && CellOf(m.literals, atom).Some?
    ensures CellFits(m', CellOf(m.literals, atom).value) && AtomAt(m', CellOf(m.literals, atom).value) == atom
  {
  }

  lemma TokenInRange(table: seq<Name>, name: Name)
    requires TokenOf(table, name).Some?
    ensures TokenOf(table, name).value < |table| && table[TokenOf(table, name).value] == name
  {
  }

  /** The tables hold every string of the stacks. */
  ghost predicate Covers(m: Image, stacks: Stacks) {
    && Strict(m.predicates) && Strict(m.literals)
    && forall slot :: slot in stacks ==> forall i :: 0 <= i < |stacks[slot]| ==> EntryCovered(m, stacks[slot][i])
  }

  predicate EntryCovered(m: Image, e: Entry) {
    e.fact.relation in m.predicates && AtomCovered(m, e.fact.subject) && AtomCovered(m, e.fact.target)
  }

  predicate AtomCovered(m: Image, atom: Atom) { atom.Literal? ==> atom.text in m.literals }

  lemma CoveredCell(m: Image, atom: Atom)
    requires AtomCovered(m, atom) && Strict(m.literals)
    ensures CellOf(m.literals, atom).Some? <==> AtomFits(atom)
  {
    if atom.Literal? {
      TokenIsPlace(m.literals, atom.text);
    }
  }

  lemma CoveredRecord(m: Image, token: nat, previous: nat, e: Entry)
    requires Strict(m.predicates) && Strict(m.literals) && EntryCovered(m, e)
    ensures RecordFor(m.literals, m.predicates, token, previous, e).Some? <==> EntryFits(e)
  {
    CoveredCell(m, e.fact.subject);
    CoveredCell(m, e.fact.target);
    TokenIsPlace(m.predicates, e.fact.relation);
  }

  predicate Bare(m: Image) { m.active == [] && m.spo == [] && m.pos == [] && m.osp == [] }

  ghost predicate SameTables(m: Image, m': Image) {
    m.slots == m'.slots && m.predicates == m'.predicates && m.literals == m'.literals
  }

  /** Lay down one slot's stack, bottom first, and make its top the slot's head. */
  method AddStack(m: Image, ghost stacks: Stacks, stack: seq<Entry>, t: nat) returns (built: Option<Image>)
    requires BuiltTo(m, stacks, t) && Bare(m) && Covers(m, stacks) && Coherent(stacks)
    requires t < |m.slots| && m.slots[t] in stacks && stacks[m.slots[t]] == stack && |m.records| + |stack| < NONE
    requires IdsFit(stacks) && IdsInRange(m)
    ensures built.Some? ==> IdsInRange(built.value)
    ensures built.Some? <==> forall i :: 0 <= i < |stack| ==> EntryFits(stack[i])
    ensures built.Some? ==> BuiltTo(built.value, stacks, t + 1) && Bare(built.value) && SameTables(m, built.value)
    ensures built.Some? ==> |built.value.records| == |m.records| + |stack|
  {
    hide Strict, TokenOf, Chain, Sound, EntryFits, EntryCovered, RecordFor, IdsInRange;
    var next, previous: nat := m, NONE;
    NoneIsEmpty(m);
    for k := 0 to |stack|
      invariant Laid(m, next, stacks, stack, t, k, previous) && IdsInRange(next)
    {
      hide Laid;
      StackCovered(m, stacks, t, k);
      var record := RecordFor(m.literals, m.predicates, t, previous, stack[k]);
      CoveredRecord(m, t, previous, stack[k]);
      if record.None? {
        return None;
      }
      LayOne(m, next, stacks, stack, t, k, previous);
      RecordIdFits(stacks, next, t, previous, stack[k]);
      previous := |m.records| + k;
      next := next.(records := next.records + [record.value]);
    }
    HeadSet(m, next, stacks, stack, t, previous);
    built := Some(next.(heads := next.heads[t := previous]));
    SameRecordIds(next, built.value);
  }

  lemma SameRecordIds(m: Image, m': Image)
    requires IdsInRange(m) && m.records == m'.records
    ensures IdsInRange(m')
  {
  }

  lemma RecordIdFits(stacks: Stacks, m: Image, t: nat, previous: nat, e: Entry)
    requires IdsInRange(m) && e.id < U64 && RecordFor(m.literals, m.predicates, t, previous, e).Some?
    ensures IdsInRange(m.(records := m.records + [RecordFor(m.literals, m.predicates, t, previous, e).value]))
  {
    hide CellOf, TokenOf;
  }

  /** After `k` entries of the stack: the chain under construction is the stack so far. */
  ghost predicate Laid(m: Image, next: Image, stacks: Stacks, stack: seq<Entry>, t: nat, k: nat, previous: nat) {
    && k <= |stack| && t < |m.slots|
    && (forall i :: 0 <= i < k ==> EntryFits(stack[i]))
    && BuiltTo(next, stacks, t) && Bare(next) && SameTables(m, next) && next.heads == m.heads
    && |next.records| == |m.records| + k
    && (previous == NONE || (previous < |next.records| && next.records[previous].slot == t))
    && Chain(next, previous) == stack[..k]
  }

  lemma StackCovered(m: Image, stacks: Stacks, t: nat, k: nat)
    requires Covers(m, stacks) && Coherent(stacks) && t < |m.slots| && m.slots[t] in stacks && k < |stacks[m.slots[t]]|
    ensures EntryCovered(m, stacks[m.slots[t]][k]) && stacks[m.slots[t]][k].slot == m.slots[t]
    ensures Strict(m.predicates) && Strict(m.literals)
  {
    hide EntryCovered, Strict;
  }

  lemma LayOne(m: Image, next: Image, stacks: Stacks, stack: seq<Entry>, t: nat, k: nat, previous: nat)
    requires Laid(m, next, stacks, stack, t, k, previous) && k < |stack| && |m.records| + |stack| < NONE
    requires stack[k].slot == m.slots[t] && EntryFits(stack[k])
    requires RecordFor(m.literals, m.predicates, t, previous, stack[k]).Some?
    ensures var record := RecordFor(m.literals, m.predicates, t, previous, stack[k]).value;
      Laid(m, next.(records := next.records + [record]), stacks, stack, t, k + 1, |m.records| + k)
  {
    hide Chain, Sound, EntryFits;
    NextSound(next, stacks, t);
    RecordAdds(next, t, previous, stack[k]);
    var record := RecordFor(m.literals, m.predicates, t, previous, stack[k]).value;
    var after := next.(records := next.records + [record]);
    assert stack[..k + 1] == stack[..k] + [stack[k]];
    HeadsInRange(next);
  }

  lemma NextSound(next: Image, stacks: Stacks, t: nat)
    requires BuiltTo(next, stacks, t)
    ensures Sound(next)
  {
  }

  lemma HeadsInRange(m: Image)
    requires Sound(m)
    ensures |m.heads| == |m.slots| && forall k :: 0 <= k < |m.heads| ==> m.heads[k] == NONE || m.heads[k] < |m.records|
  {
  }

  lemma HeadSet(m: Image, next: Image, stacks: Stacks, stack: seq<Entry>, t: nat, previous: nat)
    requires Laid(m, next, stacks, stack, t, |stack|, previous) && m.slots[t] in stacks && stacks[m.slots[t]] == stack
    ensures t < |next.heads|
    ensures var built := next.(heads := next.heads[t := previous]);
      BuiltTo(built, stacks, t + 1) && Bare(built)
  {
    hide Chain;
    var built := next.(heads := next.heads[t := previous]);
    forall i | 0 <= i < |built.records| ensures RecordFits(built, i) {
      assert RecordFits(next, i);
    }
    assert Sound(built);
    forall k | 0 <= k < |built.slots| ensures Chain(built, built.heads[k]) == Chain(next, built.heads[k]) {
      ChainStable(next, built, built.heads[k]);
    }
    assert stack[..|stack|] == stack;
  }

  function EntriesFrom(stacks: Stacks, slots: seq<Name>): nat {
    if slots == [] then 0
    else (if slots[0] in stacks then |stacks[slots[0]]| else 0) + EntriesFrom(stacks, slots[1..])
  }

  lemma TablesCover(stacks: Stacks, m: Image)
    requires m.predicates == SortedNames(RelationsIn(stacks)) && m.literals == SortedNames(LiteralsIn(stacks))
    ensures Covers(m, stacks)
  {
    hide Strict, SortedNames;
    SortedNamesStrict(RelationsIn(stacks));
    SortedNamesStrict(LiteralsIn(stacks));
    forall slot, i | slot in stacks && 0 <= i < |stacks[slot]| ensures EntryCovered(m, stacks[slot][i]) {
      var e := stacks[slot][i];
      assert e.fact.relation in RelationsIn(stacks);
      TextsCovered(stacks, m, slot, i);
    }
  }

  lemma TextsCovered(stacks: Stacks, m: Image, slot: Name, i: nat)
    requires slot in stacks && i < |stacks[slot]| && m.literals == SortedNames(LiteralsIn(stacks))
    ensures AtomCovered(m, stacks[slot][i].fact.subject) && AtomCovered(m, stacks[slot][i].fact.target)
  {
    hide SortedNames;
    var fact := stacks[slot][i].fact;
    if fact.subject.Literal? {
      assert fact.subject.text in TextOf(fact.subject) + TextOf(fact.target);
      assert fact.subject.text in LiteralsIn(stacks);
    }
    if fact.target.Literal? {
      assert fact.target.text in TextOf(fact.subject) + TextOf(fact.target);
      assert fact.target.text in LiteralsIn(stacks);
    }
  }

  function Unlinked(n: nat): (heads: seq<nat>)
    ensures |heads| == n && forall i :: 0 <= i < n ==> heads[i] == NONE
  {
    seq(n, _ => NONE)
  }

  /** Every index the image needs has 32 bits. */
  predicate Roomy(stacks: Stacks) {
    && EntriesFrom(stacks, SortedNames(stacks.Keys)) < NONE
    && |RelationsIn(stacks)| < U32 && |LiteralsIn(stacks)| < U32
  }

  predicate Tabled(m: Image, stacks: Stacks) {
    && m.slots == SortedNames(stacks.Keys)
    && m.predicates == SortedNames(RelationsIn(stacks)) && m.literals == SortedNames(LiteralsIn(stacks))
  }

  /** Tables, records and heads for a projection, unless some entity id cannot be stored or an index would not fit
      32 bits: a file with so many rows is past the size limit whatever its indexes say. */
  method BuildRecords(stacks: Stacks) returns (built: Option<Image>)
    requires Coherent(stacks) && IdsFit(stacks)
    ensures built.Some? <==> EntitiesFit(stacks) && Roomy(stacks)
    ensures built.Some? ==> Tabled(built.value, stacks) && IdsInRange(built.value)
    ensures built.Some? ==> BuiltTo(built.value, stacks, |built.value.slots|) && Bare(built.value)
    ensures built.Some? ==> Covers(built.value, stacks)
  {
    hide Strict, Sound, EntryFits, SortedNames, RelationsIn, LiteralsIn, BuiltTo;
    if !Roomy(stacks) {
      return None;
    }
    var slots := SortedNames(stacks.Keys);
    var m := Building(slots, SortedNames(RelationsIn(stacks)), SortedNames(LiteralsIn(stacks)), [], Unlinked(|slots|));
    TablesCover(stacks, m);
    NothingBuilt(m, stacks);
    assert slots[0..] == slots;
    for t := 0 to |slots|
      invariant BuiltTo(m, stacks, t) && Bare(m) && Covers(m, stacks) && Tabled(m, stacks) && IdsInRange(m)
      invariant |m.records| + EntriesFrom(stacks, slots[t..]) < NONE
      invariant forall k, i :: 0 <= k < t && 0 <= i < |stacks[slots[k]]| ==> EntryFits(stacks[slots[k]][i])
    {
      assert slots[t] in slots && slots[t..][1..] == slots[t + 1..];
      assert |m.records| + |stacks[slots[t]]| < NONE;
      var next := AddStack(m, stacks, stacks[slots[t]], t);
      if next.None? {
        return None;
      }
      SameCover(m, next.value, stacks);
      m := next.value;
    }
    forall slot, i | slot in stacks && 0 <= i < |stacks[slot]| ensures EntryFits(stacks[slot][i]) {
      assert slot in slots;
    }
    built := Some(m);
  }

  lemma SameCover(m: Image, m': Image, stacks: Stacks)
    requires Covers(m, stacks) && SameTables(m, m')
    ensures Covers(m', stacks)
  {
  }

  lemma NothingBuilt(m: Image, stacks: Stacks)
    requires m.records == [] && m.heads == Unlinked(|m.slots|) && Bare(m) && |m.predicates| < U32 && |m.literals| < U32
    ensures BuiltTo(m, stacks, 0)
  {
  }

  // ---- Active records and indexes ----

  function IdOf(records: seq<MappedRecord>, i: nat): nat {
    if i < |records| then records[i].originalId else 0
  }

  function ByOriginal(records: seq<MappedRecord>): (nat, nat) -> bool {
    (a: nat, b: nat) => IdOf(records, a) <= IdOf(records, b)
  }

  function Linked(heads: seq<nat>): (r: seq<nat>)
    ensures forall i :: i in r <==> i in heads && i != NONE
  {
    if heads == [] then []
    else
      assert heads == heads[..|heads| - 1] + [heads[|heads| - 1]];
      Linked(heads[..|heads| - 1]) + if heads[|heads| - 1] != NONE then [heads[|heads| - 1]] else []
  }

  method ListActive(heads: seq<nat>) returns (active: seq<nat>)
    ensures active == Linked(heads)
  {
    active := [];
    for i := 0 to |heads|
      invariant active == Linked(heads[..i])
    {
      assert heads[..i + 1][..i] == heads[..i];
      if heads[i] != NONE {
        active := active + [heads[i]];
      }
    }
    assert heads[..|heads|] == heads;
  }

  ghost predicate DistinctOriginals(records: seq<MappedRecord>, ids: seq<nat>) {
    forall i, j :: 0 <= i < j < |ids| ==> IdOf(records, ids[i]) != IdOf(records, ids[j])
  }

  lemma {:induction false} LinkedDistinct(m: Image, n: nat)
    requires n <= |m.heads|
    requires forall i, j :: 0 <= i < j < |m.heads| && m.heads[i] != NONE && m.heads[j] != NONE ==>
      IdOf(m.records, m.heads[i]) != IdOf(m.records, m.heads[j])
    ensures DistinctOriginals(m.records, Linked(m.heads[..n]))
    decreases n
  {
    if n > 0 {
      LinkedDistinct(m, n - 1);
      var front := m.heads[..n - 1];
      assert m.heads[..n][..n - 1] == front;
      var ids := Linked(front);
      forall i | 0 <= i < |ids| && m.heads[n - 1] != NONE ensures IdOf(m.records, ids[i]) != IdOf(m.records, m.heads[n - 1]) {
        assert ids[i] in front;
      }
    }
  }

  /** Different slots' tops are different records of the projection, so their ids differ. */
  lemma HeadsApart(m: Image, stacks: Stacks)
    requires BuiltTo(m, stacks, |m.slots|) && TopsApart(stacks) && Strict(m.slots)
    ensures forall i, j :: 0 <= i < j < |m.heads| && m.heads[i] != NONE && m.heads[j] != NONE ==>
      IdOf(m.records, m.heads[i]) != IdOf(m.records, m.heads[j])
  {
    hide Chain;
    forall i, j | 0 <= i < j < |m.heads| && m.heads[i] != NONE && m.heads[j] != NONE
      ensures IdOf(m.records, m.heads[i]) != IdOf(m.records, m.heads[j])
    {
      TopOfChain(m, m.heads[i]);
      TopOfChain(m, m.heads[j]);
    }
  }

  ghost predicate Ascends(records: seq<MappedRecord>, ids: seq<nat>) {
    forall i, j :: 0 <= i < j < |ids| ==> IdOf(records, ids[i]) < IdOf(records, ids[j])
  }

  lemma SortedIds(records: seq<MappedRecord>, ids: seq<nat>)
    requires DistinctOriginals(records, ids)
    ensures var active := Sort<nat>(ByOriginal(records), ids);
      (forall i: nat :: i in active <==> i in ids) && Ascends(records, active)
  {
    hide DistinctOriginals, IdOf;
    var le := ByOriginal(records);
    SortSorts<nat>(le, ids);
    var active := Sort<nat>(le, ids);
    forall i: nat ensures i in active <==> i in ids {
      assert i in active <==> i in multiset(active);
      assert i in ids <==> i in multiset(ids);
    }
    forall i, j | 0 <= i < j < |active| ensures IdOf(records, active[i]) < IdOf(records, active[j]) {
      assert le(active[i], active[j]);
      DistinctSorted(records, ids, active, i, j);
    }
  }

  lemma EntryId(m: Image, i: nat)
    requires Sound(m) && i < |m.records|
    ensures EntryOf(m, i).id == IdOf(m.records, i)
  {
    assert RecordFits(m, i);
  }

  lemma RisingByIds(m: Image, active: seq<nat>)
    requires Sound(m) && forall i :: 0 <= i < |active| ==> active[i] < |m.records|
    requires Ascends(m.records, active)
    ensures Rising(EntriesOf(m, active))
  {
    hide Sound, EntryOf, IdOf;
    forall i, j | 0 <= i < j < |active| ensures EntriesOf(m, active)[i].id < EntriesOf(m, active)[j].id {
      EntryId(m, active[i]);
      EntryId(m, active[j]);
    }
  }

  lemma DistinctSorted(records: seq<MappedRecord>, ids: seq<nat>, active: seq<nat>, i: nat, j: nat)
    requires multiset(ids) == multiset(active) && DistinctOriginals(records, ids) && i < j < |active|
    ensures IdOf(records, active[i]) != IdOf(records, active[j])
  {
    var x, y := active[i], active[j];
    assert x in multiset(active) && y in multiset(active);
    assert x in ids && y in ids;
    if x == y {
      assert active == active[..i] + [x] + active[i + 1..j] + [x] + active[j + 1..];
      assert multiset(ids)[x] >= 2;
      OnceInDistinct(records, ids, x);
      assert false;
    }
  }

  lemma {:induction false} OnceInDistinct(records: seq<MappedRecord>, ids: seq<nat>, x: nat)
    requires DistinctOriginals(records, ids)
    ensures multiset(ids)[x] <= 1
    decreases |ids|
  {
    if ids != [] {
      var front, last := ids[..|ids| - 1], ids[|ids| - 1];
      assert ids == front + [last];
      OnceInDistinct(records, front, x);
      if x == last {
        assert forall i :: 0 <= i < |front| ==> front[i] == ids[i] && IdOf(records, ids[i]) != IdOf(records, last);
        assert x !in front && x !in multiset(front);
      }
    }
  }

  function EntryFor(records: seq<MappedRecord>, section: Section, i: nat): IndexEntry
    requires i < |records|
  {
    var key := SectionKey(records[i], section);
    IndexEntry(key[0], key[1], key[2], i)
  }

  predicate ByKey(records: seq<MappedRecord>, a: IndexEntry, b: IndexEntry) {
    if KeyOf(a) == KeyOf(b) then IdOf(records, a.record) <= IdOf(records, b.record) else KeyLe(KeyOf(a), KeyOf(b))
  }

  function KeyOrderOf(records: seq<MappedRecord>): (IndexEntry, IndexEntry) -> bool {
    (a: IndexEntry, b: IndexEntry) => ByKey(records, a, b)
  }

  lemma KeyOrderIsTotal(records: seq<MappedRecord>)
    ensures TotalPreorder(KeyOrderOf(records))
  {
    hide KeyOf, KeyLe;
    forall a: IndexEntry, b: IndexEntry ensures ByKey(records, a, b) || ByKey(records, b, a) {
      KeyOrder(KeyOf(a), KeyOf(b));
    }
    forall a: IndexEntry, b: IndexEntry, c: IndexEntry | ByKey(records, a, b) && ByKey(records, b, c) ensures ByKey(records, a, c) {
      KeyTransitive(KeyOf(a), KeyOf(b), KeyOf(c));
      KeyOrder(KeyOf(a), KeyOf(b));
    }
  }

  lemma KeyTransitive(a: seq<nat>, b: seq<nat>, c: seq<nat>)
    ensures KeyLe(a, b) && KeyLe(b, c) ==> KeyLe(a, c)
    ensures KeyLe(a, a)
  {
    KeyOrder(a, a);
    if KeyLe(a, b) && KeyLe(b, c) {
      LexTransitive(NatLe, a, b, c);
    }
  }

  ghost predicate IndexBuilt(records: seq<MappedRecord>, active: seq<nat>, index: seq<IndexEntry>, section: Section) {
    && SortedByKey(index) && TiesRise(records, index) && multiset(RecordsIn(index)) == multiset(active)
    && forall e :: e in index ==> e.record < |records| && KeyOf(e) == SectionKey(records[e.record], section)
  }

  method BuildIndex(records: seq<MappedRecord>, active: seq<nat>, section: Section) returns (index: seq<IndexEntry>)
    requires forall i :: 0 <= i < |active| ==> active[i] < |records|
    ensures IndexBuilt(records, active, index, section)
  {
    hide IndexBuilt, EntryFor;
    var entries: seq<IndexEntry> := [];
    for k := 0 to |active|
      invariant |entries| == k && forall i :: 0 <= i < k ==> entries[i] == EntryFor(records, section, active[i])
    {
      entries := entries + [EntryFor(records, section, active[k])];
    }
    SortedIndexIsBuilt(records, active, entries, section);
    index := Sort(KeyOrderOf(records), entries);
  }

  lemma SortedIndexIsBuilt(records: seq<MappedRecord>, active: seq<nat>, entries: seq<IndexEntry>, section: Section)
    requires |entries| == |active| && forall i :: 0 <= i < |active| ==> active[i] < |records|
    requires forall i :: 0 <= i < |entries| ==> entries[i] == EntryFor(records, section, active[i])
    ensures IndexBuilt(records, active, Sort(KeyOrderOf(records), entries), section)
  {
    hide SectionKey, SortedByKey, TiesRise, KeyOf, EntryFor, RecordsIn;
    var le := KeyOrderOf(records);
    hide KeyOrderOf;
    IndexIsSorted(records, entries);
    KeyOrderIsTotal(records);
    SortSorts(le, entries);
    hide Sort;
    RecordsPermuted(Sort(le, entries), entries);
    RecordsOfEntries(records, active, entries, section);
    KeysFollow(records, Sort(le, entries), entries, section);
  }

  lemma KeysFollow(records: seq<MappedRecord>, index: seq<IndexEntry>, entries: seq<IndexEntry>, section: Section)
    requires multiset(index) == multiset(entries)
    requires forall e :: e in entries ==> e.record < |records| && KeyOf(e) == SectionKey(records[e.record], section)
    ensures forall e :: e in index ==> e.record < |records| && KeyOf(e) == SectionKey(records[e.record], section)
  {
    hide SectionKey, KeyOf;
    forall e | e in index ensures e in entries {
      SortedMember(index, entries, e);
    }
  }

  lemma SortedMember(index: seq<IndexEntry>, entries: seq<IndexEntry>, e: IndexEntry)
    requires multiset(index) == multiset(entries) && e in index
    ensures e in entries
  {
    assert e in multiset(index) && e in multiset(entries);
  }

  lemma RecordsOfEntries(records: seq<MappedRecord>, active: seq<nat>, entries: seq<IndexEntry>, section: Section)
    requires |entries| == |active| && forall i :: 0 <= i < |active| ==> active[i] < |records|
    requires forall i :: 0 <= i < |entries| ==> entries[i] == EntryFor(records, section, active[i])
    ensures RecordsIn(entries) == active
    ensures forall e :: e in entries ==> e.record < |records| && KeyOf(e) == SectionKey(records[e.record], section)
  {
    hide SectionKey;
    assert RecordsIn(entries) == active;
  }

  lemma IndexIsSorted(records: seq<MappedRecord>, entries: seq<IndexEntry>)
    ensures SortedByKey(Sort(KeyOrderOf(records), entries)) && TiesRise(records, Sort(KeyOrderOf(records), entries))
  {
    hide KeyOf, KeyLe;
    KeyOrderIsTotal(records);
    SortSorts(KeyOrderOf(records), entries);
    var index := Sort(KeyOrderOf(records), entries);
    forall i, j | 0 <= i < j < |index|
      ensures KeyLe(KeyOf(index[i]), KeyOf(index[j]))
      ensures KeyOf(index[i]) == KeyOf(index[j]) ==> IdOf(records, index[i].record) <= IdOf(records, index[j].record)
    {
      assert KeyOrderOf(records)(index[i], index[j]);
      KeyTransitive(KeyOf(index[i]), KeyOf(index[j]), KeyOf(index[j]));
    }
  }

  ghost function RecordBag(): IndexEntry -> multiset<nat> {
    (e: IndexEntry) => multiset{e.record}
  }

  lemma {:induction false} RecordsAreSum(entries: seq<IndexEntry>)
    ensures multiset(RecordsIn(entries)) == SumSeq(entries, RecordBag())
    decreases |entries|
  {
    if entries != [] {
      RecordsAreSum(entries[1..]);
      assert RecordsIn(entries) == [entries[0].record] + RecordsIn(entries[1..]);
    }
  }

  lemma RecordsPermuted(a: seq<IndexEntry>, b: seq<IndexEntry>)
    requires multiset(a) == multiset(b)
    ensures multiset(RecordsIn(a)) == multiset(RecordsIn(b))
  {
    RecordsAreSum(a);
    RecordsAreSum(b);
    SumPermutation(a, b, RecordBag());
  }

  // ---- The snapshot ----

  /** Take a snapshot of a projection's stacks. It fails exactly when an entity id or an index cannot be stored;
      otherwise it represents the stacks. */
  method Create(stacks: Stacks) returns (image: Option<Image>)
    requires Coherent(stacks) && IdsFit(stacks) && TopsApart(stacks)
    ensures image.Some? <==> EntitiesFit(stacks) && Roomy(stacks)
    ensures image.Some? ==> Represents(image.value, stacks) && Tabled(image.value, stacks) && IdsInRange(image.value)
  {
    hide *;
    var built := BuildRecords(stacks);
    if built.None? {
      return None;
    }
    var m := built.value;
    var linked := ListActive(m.heads);
    var active := Sort<nat>(ByOriginal(m.records), linked);
    TabledSlots(m, stacks);
    ActiveIsListed(m, stacks);
    var spo := BuildIndex(m.records, active, SPO);
    var pos := BuildIndex(m.records, active, POS);
    var osp := BuildIndex(m.records, active, OSP);
    Assembled(m, stacks, active, spo, pos, osp);
    image := Some(Image(m.slots, m.predicates, m.literals, m.records, m.heads, active, spo, pos, osp));
    SameRecordIds(m, image.value);
    SameStrings(m, image.value, stacks);
  }

  lemma TabledSlots(m: Image, stacks: Stacks)
    requires Tabled(m, stacks)
    ensures m.slots == SortedNames(stacks.Keys)
  {
  }

  lemma SameStrings(m: Image, m': Image, stacks: Stacks)
    requires Tabled(m, stacks) && m.slots == m'.slots && m.predicates == m'.predicates && m.literals == m'.literals
    ensures Tabled(m', stacks)
  {
  }

  lemma ActiveIsListed(m: Image, stacks: Stacks)
    requires BuiltTo(m, stacks, |m.slots|) && TopsApart(stacks) && m.slots == SortedNames(stacks.Keys)
    ensures Sound(m)
    ensures var active := Sort<nat>(ByOriginal(m.records), Linked(m.heads));
      && (forall i :: 0 <= i < |active| ==> active[i] < |m.records|)
      && (forall i: nat :: i in active <==> i in m.heads && i != NONE)
      && Rising(EntriesOf(m, active))
  {
    hide TopsApart, Strict, ByOriginal, IdOf, EntriesOf, Chain, Rising, DistinctOriginals, SortedNames, Ascends;
    SortedNamesStrict(stacks.Keys);
    HeadsApart(m, stacks);
    LinkedDistinct(m, |m.heads|);
    NextSound(m, stacks, |m.slots|);
    HeadsInRange(m);
    hide BuiltTo, Sound;
    assert m.heads[..|m.heads|] == m.heads;
    SortedIds(m.records, Linked(m.heads));
    var active := Sort<nat>(ByOriginal(m.records), Linked(m.heads));
    forall i | 0 <= i < |active| ensures active[i] < |m.records| {
      assert active[i] in active;
      assert active[i] in m.heads;
    }
    RisingByIds(m, active);
  }

  lemma Assembled(m: Image, stacks: Stacks, active: seq<nat>, spo: seq<IndexEntry>, pos: seq<IndexEntry>,
                  osp: seq<IndexEntry>)
    requires BuiltTo(m, stacks, |m.slots|) && Bare(m) && m.slots == SortedNames(stacks.Keys) && Covers(m, stacks)
    requires forall i :: 0 <= i < |active| ==> active[i] < |m.records|
    requires forall i: nat :: i in active <==> i in m.heads && i != NONE
    requires Sound(m) && Rising(EntriesOf(m, active))
    requires IndexBuilt(m.records, active, spo, SPO) && IndexBuilt(m.records, active, pos, POS)
    requires IndexBuilt(m.records, active, osp, OSP)
    ensures Represents(Image(m.slots, m.predicates, m.literals, m.records, m.heads, active, spo, pos, osp), stacks)
  {
    hide Chain, EntryOf, SortedNames, EntryCovered, IsIndexOf, IndexBuilt, Rising, RecordFits;
    var image := Image(m.slots, m.predicates, m.literals, m.records, m.heads, active, spo, pos, osp);
    AssembledSound(m, active, spo, pos, osp);
    SortedNamesStrict(stacks.Keys);
    forall i: nat | i == NONE || i < |m.records| ensures Chain(image, i) == Chain(m, i) {
      ChainStable(m, image, i);
    }
    SameEntries(m, image, active);
    BuiltIsIndex(image, SPO);
    BuiltIsIndex(image, POS);
    BuiltIsIndex(image, OSP);
  }

  lemma BuiltIsIndex(image: Image, section: Section)
    requires Sound(image) && IndexBuilt(image.records, image.active, EntriesIn(image, section), section)
    ensures IsIndexOf(image, section)
  {
    hide Sound, SortedByKey, TiesRise, KeyOf, SectionKey;
  }

  lemma AssembledSound(m: Image, active: seq<nat>, spo: seq<IndexEntry>, pos: seq<IndexEntry>, osp: seq<IndexEntry>)
    requires Sound(m) && forall i :: 0 <= i < |active| ==> active[i] < |m.records|
    requires IndexBuilt(m.records, active, spo, SPO) && IndexBuilt(m.records, active, pos, POS)
    requires IndexBuilt(m.records, active, osp, OSP)
    ensures Sound(Image(m.slots, m.predicates, m.literals, m.records, m.heads, active, spo, pos, osp))
  {
    hide SectionKey, KeyOf;
    var image := Image(m.slots, m.predicates, m.literals, m.records, m.heads, active, spo, pos, osp);
    forall i | 0 <= i < |image.records| ensures RecordFits(image, i) {
      assert RecordFits(m, i);
    }
  }

  lemma SameEntries(m: Image, image: Image, active: seq<nat>)
    requires Sound(m) && Sound(image) && m.records == image.records && SameTables(m, image)
    requires forall i :: 0 <= i < |active| ==> active[i] < |m.records|
    ensures EntriesOf(image, active) == EntriesOf(m, active)
  {
    hide Sound;
    forall i | 0 <= i < |active| ensures EntryOf(image, active[i]) == EntryOf(m, active[i]) {
      RecordInBounds(m, active[i]);
      RecordInBounds(image, active[i]);
    }
  }

  lemma RecordInBounds(m: Image, i: nat)
    requires Sound(m) && i < |m.records|
    ensures RecordFits(m, i)
  {
  }
}
