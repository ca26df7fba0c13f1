/** The query projection of a replayed history: a stack per slot, the active facts in record order, and seven
    maps from fact parts to positions in that list. Nothing here looks at a log. */
module Projection {
  import opened Facts
  import opened Orders
  import opened Store
  import opened Query
  import opened QueryLaws
  import opened Indexes
  import opened Commits
  import C = Calls

  // ---- Replay into stacks ----

  datatype Replayed = Replayed(stacks: Stacks, records: nat)

  function ReplayOne(r: Replayed, op: Operation): Replayed {
    match op
    case AllocateEntity(_) => r
    case Define(slot, fact) => Replayed(Push(r.stacks, r.records, slot, fact), r.records + 1)
    case Forget(slot) => Replayed(Pop(r.stacks, slot), r.records + 1)
  }

  function Replay(ops: seq<Operation>): Replayed {
    if ops == [] then Replayed(map[], 0) else ReplayOne(Replay(ops[..|ops| - 1]), ops[|ops| - 1])
  }

  /** The stacks are those under the linked heads of a kernel that made the same calls, record ids included. */
  lemma {:induction false} ReplayIsKernel(ops: seq<Operation>)
    ensures Inv(C.INITIAL.store)
    ensures var m := C.AfterAll(C.INITIAL, CallsOf(ops));
      Replay(ops) == Replayed(StacksOf(m.store), |m.store.log|)
    decreases |ops|
  {
    C.InitialIsSound();
    if ops != [] {
      hide Inv, StackAt;
      var before, op := ops[..|ops| - 1], ops[|ops| - 1];
      ReplayIsKernel(before);
      assert CallsOf(ops)[..|ops| - 1] == CallsOf(before);
      var s := C.AfterAll(C.INITIAL, CallsOf(before)).store;
      match op {
        case AllocateEntity(_) =>
        case Define(slot, fact) => DefinePushes(s, slot, fact);
        case Forget(slot) => ForgetPops(s, slot);
      }
    } else {
      assert CallsOf(ops) == [];
    }
  }

  // ---- Active facts ----

  predicate ByRecord(a: Entry, b: Entry) { a.id <= b.id }

  ghost predicate Rising(es: seq<Entry>) {
    forall i, j :: 0 <= i < j < |es| ==> es[i].id < es[j].id
  }

  ghost predicate DistinctIds(es: seq<Entry>) {
    forall i, j :: 0 <= i < j < |es| ==> es[i].id != es[j].id
  }

  ghost function Tops(stacks: Stacks): set<Entry> {
    set slot | slot in stacks && stacks[slot] != [] :: stacks[slot][|stacks[slot]| - 1]
  }

  lemma {:induction false} RisingUnique(a: seq<Entry>, b: seq<Entry>)
    requires Rising(a) && Rising(b)
    requires forall e :: e in a <==> e in b
    ensures a == b
    decreases |a|
  {
    assert b != [] ==> b[0] in a;
    if a != [] {
      assert a[0] in b && b[0] in a;
      assert a[0] == b[0];
      forall e ensures e in a[1..] <==> e in b[1..] {
        if e in a[1..] {
          assert e in b && e != b[0];
        }
        if e in b[1..] {
          assert e in a && e != a[0];
        }
      }
      RisingUnique(a[1..], b[1..]);
      assert a == [a[0]] + a[1..] && b == [b[0]] + b[1..];
    }
  }

  lemma SortRises(es: seq<Entry>)
    requires DistinctIds(es)
    ensures Rising(Sort(ByRecord, es))
    ensures forall e :: e in Sort(ByRecord, es) <==> e in es
  {
    var sorted := Sort(ByRecord, es);
    SortSorts(ByRecord, es);
    forall e ensures e in sorted <==> e in es {
      assert e in sorted <==> e in multiset(sorted);
      assert e in es <==> e in multiset(es);
    }
    forall i, j | 0 <= i < j < |sorted| ensures sorted[i].id < sorted[j].id {
      assert ByRecord(sorted[i], sorted[j]);
      if sorted[i].id == sorted[j].id {
        SameIdTwice(sorted, es, i, j);
        assert false;
      }
    }
  }

  lemma SameIdTwice(sorted: seq<Entry>, es: seq<Entry>, i: nat, j: nat)
    requires multiset(sorted) == multiset(es) && i < j < |sorted| && sorted[i].id == sorted[j].id
    ensures !DistinctIds(es)
  {
    var x, y := sorted[i], sorted[j];
    if x == y {
      assert sorted == sorted[..i] + [x] + sorted[i + 1..j] + [x] + sorted[j + 1..];
      assert multiset(es)[x] >= 2;
      TwiceIn(es, x);
    } else {
      assert x in multiset(sorted) && y in multiset(sorted);
      assert x in es && y in es;
    }
  }

  lemma {:induction false} TwiceIn(es: seq<Entry>, x: Entry)
    requires multiset(es)[x] >= 2
    ensures !DistinctIds(es)
  {
    assert x in es;
    var i :| 0 <= i < |es| && es[i] == x;
    assert es == es[..i] + [x] + es[i + 1..];
    assert multiset(es[..i])[x] + 1 + multiset(es[i + 1..])[x] == multiset(es)[x];
    if x in multiset(es[..i]) {
      assert x in es[..i];
    } else {
      assert x in multiset(es[i + 1..]);
      assert x in es[i + 1..];
    }
  }

  lemma TopOfSlot(s: State, slot: Name)
    requires Inv(s) && slot in s.head
    ensures slot in StacksOf(s) && StacksOf(s)[slot] != []
    ensures s.head[slot] < |s.log| && s.log[s.head[slot]].fact.Some?
    ensures StacksOf(s)[slot][|StacksOf(s)[slot]| - 1] == EntryAt(s.log, s.head[slot])
    ensures s.head[slot] in HeadIds(s)
  {
    TopIsHead(s, slot);
  }

  lemma HeadSlot(s: State, id: nat) returns (slot: Name)
    requires Inv(s) && id in HeadIds(s)
    ensures slot in s.head && s.head[slot] == id
  {
    slot :| slot in s.head && s.head[slot] == id;
  }

  /** The tops of the stacks, in record order, are the kernel's active facts. */
  lemma TopsAreActive(s: State)
    requires Inv(s)
    ensures Rising(ActiveEntries(s))
    ensures forall e :: e in ActiveEntries(s) <==> e in Tops(StacksOf(s))
  {
    HeadsAreDefinitions(s);
    var ids, stacks := SortedIds(HeadIds(s)), StacksOf(s);
    hide Inv, StackAt, HeadIds;
    var active := ActiveEntries(s);
    forall e | e in active ensures e in Tops(stacks) {
      var i :| 0 <= i < |ids| && active[i] == e;
      assert ids[i] in HeadIds(s);
      var slot := HeadSlot(s, ids[i]);
      TopOfSlot(s, slot);
    }
    forall e | e in Tops(stacks) ensures e in active {
      var slot :| slot in stacks && stacks[slot] != [] && stacks[slot][|stacks[slot]| - 1] == e;
      TopOfSlot(s, slot);
      var i :| 0 <= i < |ids| && ids[i] == s.head[slot];
      assert active[i] == e;
    }
  }

  /** No two stacks share their top's record. */
  ghost predicate TopsApart(stacks: Stacks) {
    forall x, y :: x in stacks && y in stacks && x != y && stacks[x] != [] && stacks[y] != [] ==>
      stacks[x][|stacks[x]| - 1].id != stacks[y][|stacks[y]| - 1].id
  }

  lemma KernelTopsApart(s: State)
    requires Inv(s)
    ensures TopsApart(StacksOf(s))
  {
    var stacks: Stacks := StacksOf(s);
    hide StackAt;
    forall x: Name, y: Name | x in stacks && y in stacks && x != y && stacks[x] != [] && stacks[y] != []
      ensures stacks[x][|stacks[x]| - 1].id != stacks[y][|stacks[y]| - 1].id
    {
      TopOfSlot(s, x);
      TopOfSlot(s, y);
      HeadsDistinctBySlot(s, x, y);
    }
  }

  lemma HeadsDistinctBySlot(s: State, x: Name, y: Name)
    requires Inv(s) && x in s.head && y in s.head && x != y
    ensures s.head[x] != s.head[y]
  {
    assert IsDefinition(s.log, s.head[x], x) && IsDefinition(s.log, s.head[y], y);
  }

  // ---- Positions ----

  type PositionIndex<!K> = map<K, seq<nat>>

  function PositionsFor<K(==)>(index: PositionIndex<K>, k: K): seq<nat> {
    if k in index then index[k] else []
  }

  function PushPosition<K(==)>(index: PositionIndex<K>, k: K, i: nat): PositionIndex<K> {
    index[k := PositionsFor(index, k) + [i]]
  }

  /** The positions of the facts with a given key, ascending. */
  function Positions<K(==)>(active: seq<Entry>, key: Fact -> K, k: K): seq<nat> {
    if active == [] then []
    else Positions(active[..|active| - 1], key, k) + if key(active[|active| - 1].fact) == k then [|active| - 1] else []
  }

  ghost predicate Lists<K(!new)>(index: PositionIndex<K>, active: seq<Entry>, key: Fact -> K) {
    forall k :: PositionsFor(index, k) == Positions(active, key, k)
  }

  lemma PushKeepsLists<K(!new)>(index: PositionIndex<K>, active: seq<Entry>, key: Fact -> K, i: nat)
    requires i < |active| && Lists(index, active[..i], key)
    ensures Lists(PushPosition(index, key(active[i].fact), i), active[..i + 1], key)
  {
    var next := active[..i + 1];
    assert next[..|next| - 1] == active[..i] && next[|next| - 1] == active[i];
    forall k ensures PositionsFor(PushPosition(index, key(active[i].fact), i), k) == Positions(next, key, k) {
      assert PositionsFor(index, k) == Positions(active[..i], key, k);
    }
  }

  function EntriesFor(active: seq<Entry>, positions: seq<nat>): (r: seq<Entry>)
    requires forall i :: 0 <= i < |positions| ==> positions[i] < |active|
    ensures |r| == |positions| && forall i :: 0 <= i < |r| ==> r[i] == active[positions[i]]
  {
    seq(|positions|, i requires 0 <= i < |positions| => active[positions[i]])
  }

  lemma SelectNothing(p: Pattern, b: Binding)
    ensures Select([], p, b) == []
  {
  }

  lemma {:induction false} SelectLast(front: seq<Entry>, e: Entry, p: Pattern, b: Binding)
    ensures Select(front + [e], p, b) == Select(front, p, b) + if Agrees(p, b, e.fact) then [e] else []
    decreases |front|
  {
    hide Agrees, Select;
    if front == [] {
      assert front + [e] == [e] + [];
      SelectFirst(e, [], p, b);
      SelectNothing(p, b);
    } else {
      var first, rest := front[0], front[1..];
      SelectLast(rest, e, p, b);
      SelectFirst(first, rest + [e], p, b);
      SelectFirst(first, rest, p, b);
      assert [first] + rest == front && [first] + (rest + [e]) == front + [e];
    }
  }

  lemma PositionsLast<K>(front: seq<Entry>, e: Entry, key: Fact -> K, k: K)
    ensures Positions(front + [e], key, k) == Positions(front, key, k) + if key(e.fact) == k then [|front|] else []
  {
    assert (front + [e])[..|front|] == front;
  }

  lemma MoreEntries(front: seq<Entry>, e: Entry, positions: seq<nat>)
    requires forall i :: 0 <= i < |positions| ==> positions[i] < |front|
    ensures EntriesFor(front + [e], positions) == EntriesFor(front, positions)
    ensures EntriesFor(front + [e], positions + [|front|]) == EntriesFor(front, positions) + [e]
  {
  }

  /** When agreeing with a pattern means having a certain key, the key's positions list the selection. */
  lemma {:induction false} PositionsSelect<K>(active: seq<Entry>, key: Fact -> K, k: K, p: Pattern, b: Binding)
    requires forall f :: Agrees(p, b, f) <==> key(f) == k
    ensures forall i :: 0 <= i < |Positions(active, key, k)| ==> Positions(active, key, k)[i] < |active|
    ensures EntriesFor(active, Positions(active, key, k)) == Select(active, p, b)
    decreases |active|
  {
    if active == [] {
      SelectNothing(p, b);
    } else {
      hide Agrees, Select, Positions, EntriesFor;
      var front, e := active[..|active| - 1], active[|active| - 1];
      assert active == front + [e];
      PositionsSelect(front, key, k, p, b);
      PositionsLast(front, e, key, k);
      SelectLast(front, e, p, b);
      MoreEntries(front, e, Positions(front, key, k));
      assert Agrees(p, b, e.fact) <==> key(e.fact) == k;
    }
  }

  lemma BucketSelection<K(!new)>(index: PositionIndex<K>, active: seq<Entry>, key: Fact -> K, k: K, p: Pattern,
                          b: Binding)
    requires Lists(index, active[..|active|], key)
    requires forall f :: Agrees(p, b, f) <==> key(f) == k
    ensures var positions := PositionsFor(index, k);
      && (forall i :: 0 <= i < |positions| ==> positions[i] < |active|)
      && EntriesFor(active, positions) == Select(active, p, b)
  {
    assert active[..|active|] == active;
    PositionsSelect(active, key, k, p, b);
  }

  function UpTo(n: nat): (r: seq<nat>)
    ensures |r| == n && forall i :: 0 <= i < n ==> r[i] == i
  {
    seq(n, i => i)
  }

  lemma {:induction false} SelectEverything(active: seq<Entry>, p: Pattern, b: Binding)
    requires forall f :: Agrees(p, b, f)
    ensures Select(active, p, b) == active
    decreases |active|
  {
    if active != [] {
      SelectEverything(active[1..], p, b);
    }
  }

  class VmQueryProjection {
    var definitions: Stacks
    var active: seq<Entry>
    var bySubject: PositionIndex<Atom>
    var byRelation: PositionIndex<Name>
    var byTarget: PositionIndex<Atom>
    var bySubjectRelation: PositionIndex<(Atom, Name)>
    var bySubjectTarget: PositionIndex<(Atom, Atom)>
    var byRelationTarget: PositionIndex<(Name, Atom)>
    var byExact: PositionIndex<Fact>

    /** Each of the seven maps lists the positions of the first `n` active facts. */
    ghost predicate Indexed(n: nat)
      requires n <= |active|
      reads this
    {
      && Lists(bySubject, active[..n], SubjectOf)
      && Lists(byRelation, active[..n], RelationOf)
      && Lists(byTarget, active[..n], TargetOf)
      && Lists(bySubjectRelation, active[..n], SubjectRelationOf)
      && Lists(bySubjectTarget, active[..n], SubjectTargetOf)
      && Lists(byRelationTarget, active[..n], RelationTargetOf)
      && Lists(byExact, active[..n], ExactOf)
    }

    ghost predicate Valid()
      reads this
    {
      Indexed(|active|)
    }

    method IndexFact(i: nat)
      requires i < |active| && Indexed(i)
      modifies this
      ensures active == old(active) && definitions == old(definitions) && Indexed(i + 1)
    {
      hide Lists, PushPosition;
      var fact := active[i].fact;
      PushKeepsLists(bySubject, active, SubjectOf, i);
      bySubject := PushPosition(bySubject, fact.subject, i);
      PushKeepsLists(byRelation, active, RelationOf, i);
      byRelation := PushPosition(byRelation, fact.relation, i);
      PushKeepsLists(byTarget, active, TargetOf, i);
      byTarget := PushPosition(byTarget, fact.target, i);
      PushKeepsLists(bySubjectRelation, active, SubjectRelationOf, i);
      bySubjectRelation := PushPosition(bySubjectRelation, (fact.subject, fact.relation), i);
      PushKeepsLists(bySubjectTarget, active, SubjectTargetOf, i);
      bySubjectTarget := PushPosition(bySubjectTarget, (fact.subject, fact.target), i);
      PushKeepsLists(byRelationTarget, active, RelationTargetOf, i);
      byRelationTarget := PushPosition(byRelationTarget, (fact.relation, fact.target), i);
      PushKeepsLists(byExact, active, ExactOf, i);
      byExact := PushPosition(byExact, fact, i);
    }

    method IndexAll()
      requires Indexed(0)
      modifies this
      ensures active == old(active) && definitions == old(definitions) && Valid()
    {
      hide Indexed;
      for i := 0 to |active|
        invariant definitions == old(definitions) && active == old(active) && Indexed(i)
      {
        IndexFact(i);
      }
    }

    constructor FromFrames(frames: seq<CommitFrame>)
      ensures Valid()
      ensures definitions == Replay(Flatten(frames)).stacks
      ensures TopsApart(definitions) ==> Rising(active) && forall e :: e in active <==> e in Tops(definitions)
    {
      definitions, active := map[], [];
      bySubject, byRelation, byTarget := map[], map[], map[];
      bySubjectRelation, bySubjectTarget, byRelationTarget, byExact := map[], map[], map[], map[];
      new;
      hide Replay, ReplayOne, Tops, Rising, TopsApart, PositionsFor;
      var replayed := ReplayFrames(frames);
      definitions := replayed.stacks;
      var tops := CollectTops(definitions);
      active := Sort(ByRecord, tops);
      SortedTops(definitions, tops);
      NothingIndexed(this);
      IndexAll();
    }

    function Resolve(slot: Name): (fact: Option<Fact>)
      reads this
      ensures fact == ResolveIn(definitions, slot)
    {
      if slot in definitions && definitions[slot] != [] then Some(definitions[slot][|definitions[slot]| - 1].fact) else None
    }

    method Definitions(slot: Name) returns (facts: seq<Fact>)
      ensures facts == DefinitionsIn(definitions, slot)
    {
      var stack := if slot in definitions then definitions[slot] else [];
      facts := [];
      assert stack[..|stack|] == stack;
      for i := |stack| downto 0
        invariant facts + NewestFirst(stack[..i]) == DefinitionsIn(definitions, slot)
      {
        assert stack[..i + 1][..i] == stack[..i];
        facts := facts + [stack[i].fact];
      }
    }

    /** The positions of a pattern's candidates: one bucket of one map, or every position. */
    function Bucket(p: Pattern, b: Binding): (positions: seq<nat>)
      reads this
    {
      match (ResolvedAtom(p.subject, b), ResolvedPredicate(p.relation, b), ResolvedAtom(p.target, b))
      case (Some(s), Some(r), Some(t)) => PositionsFor(byExact, Fact(s, r, t))
      case (Some(s), Some(r), None) => PositionsFor(bySubjectRelation, (s, r))
      case (Some(s), None, Some(t)) => PositionsFor(bySubjectTarget, (s, t))
      case (None, Some(r), Some(t)) => PositionsFor(byRelationTarget, (r, t))
      case (Some(s), None, None) => PositionsFor(bySubject, s)
      case (None, Some(r), None) => PositionsFor(byRelation, r)
      case (None, None, Some(t)) => PositionsFor(byTarget, t)
      case (None, None, None) => UpTo(|active|)
    }

    lemma BucketSelects(p: Pattern, b: Binding)
      requires Valid()
      ensures forall i :: 0 <= i < |Bucket(p, b)| ==> Bucket(p, b)[i] < |active|
      ensures EntriesFor(active, Bucket(p, b)) == Select(active, p, b)
    {
      hide Lists, Positions, Select, PositionsFor;
      match (ResolvedAtom(p.subject, b), ResolvedPredicate(p.relation, b), ResolvedAtom(p.target, b))
      case (Some(s), Some(r), Some(t)) => BucketSelection(byExact, active, ExactOf, Fact(s, r, t), p, b);
      case (Some(s), Some(r), None) => BucketSelection(bySubjectRelation, active, SubjectRelationOf, (s, r), p, b);
      case (Some(s), None, Some(t)) => BucketSelection(bySubjectTarget, active, SubjectTargetOf, (s, t), p, b);
      case (None, Some(r), Some(t)) => BucketSelection(byRelationTarget, active, RelationTargetOf, (r, t), p, b);
      case (Some(s), None, None) => BucketSelection(bySubject, active, SubjectOf, s, p, b);
      case (None, Some(r), None) => BucketSelection(byRelation, active, RelationOf, r, p, b);
      case (None, None, Some(t)) => BucketSelection(byTarget, active, TargetOf, t, p, b);
      case (None, None, None) =>
        SelectEverything(active, p, b);
        assert EntriesFor(active, UpTo(|active|)) == active;
    }

    function Candidates(p: Pattern, b: Binding): (entries: seq<Entry>)
      requires Valid()
      reads this
      ensures entries == Select(active, p, b)
    {
      BucketSelects(p, b);
      EntriesFor(active, Bucket(p, b))
    }

    method Query(ps: seq<Pattern>, o: Options) returns (result: QueryResult)
      requires Valid()
      ensures result == QueryOf(SelectFrom(active), ps, o)
    {
      result := RunQuery((p, b) reads this requires Valid() => Candidates(p, b),
                         (p, b) reads this requires Valid() => |Candidates(p, b)|, SelectFrom(active), ps, o);
    }
  }

  lemma NothingIndexed(projection: VmQueryProjection)
    requires projection.bySubject == map[] && projection.byRelation == map[] && projection.byTarget == map[]
    requires projection.bySubjectRelation == map[] && projection.bySubjectTarget == map[]
    requires projection.byRelationTarget == map[] && projection.byExact == map[]
    ensures projection.Indexed(0)
  {
  }

  method ReplayFrames(frames: seq<CommitFrame>) returns (replayed: Replayed)
    ensures replayed == Replay(Flatten(frames))
  {
    replayed := Replayed(map[], 0);
    for i := 0 to |frames|
      invariant replayed == Replay(Flatten(frames[..i]))
    {
      ghost var done := Flatten(frames[..i]);
      var ops := frames[i].operations;
      assert frames[..i + 1][..i] == frames[..i];
      assert done + ops[..0] == done;
      for j := 0 to |ops|
        invariant replayed == Replay(done + ops[..j])
      {
        assert (done + ops[..j + 1])[..|done| + j] == done + ops[..j];
        replayed := ReplayOne(replayed, ops[j]);
      }
      assert ops[..|ops|] == ops;
    }
    assert frames[..|frames|] == frames;
  }

  ghost function TopsOf(stacks: Stacks, slots: set<Name>): set<Entry>
    requires slots <= stacks.Keys
  {
    set slot | slot in slots && stacks[slot] != [] :: stacks[slot][|stacks[slot]| - 1]
  }

  lemma OneMoreTop(stacks: Stacks, slots: set<Name>, slot: Name)
    requires slots <= stacks.Keys && slot in stacks && slot !in slots
    ensures TopsOf(stacks, slots + {slot})
         == TopsOf(stacks, slots) + if stacks[slot] != [] then {stacks[slot][|stacks[slot]| - 1]} else {}
    ensures TopsApart(stacks) && stacks[slot] != [] ==>
      forall e :: e in TopsOf(stacks, slots) ==> e.id != stacks[slot][|stacks[slot]| - 1].id
  {
  }

  /** The last entry of every stack, in whatever order the map yields its keys. */
  method CollectTops(stacks: Stacks) returns (tops: seq<Entry>)
    ensures forall e :: e in tops <==> e in Tops(stacks)
    ensures TopsApart(stacks) ==> DistinctIds(tops)
  {
    tops := [];
    var slots := stacks.Keys;
    ghost var seen: set<Name> := {};
    while slots != {}
      invariant slots + seen == stacks.Keys && slots !! seen
      invariant forall e :: e in tops <==> e in TopsOf(stacks, seen)
      invariant TopsApart(stacks) ==> DistinctIds(tops)
      decreases slots
    {
      hide TopsOf, TopsApart;
      var slot :| slot in slots;
      var stack := stacks[slot];
      OneMoreTop(stacks, seen, slot);
      if stack != [] {
        assert forall i :: 0 <= i < |tops| ==> tops[i] in TopsOf(stacks, seen);
        tops := tops + [stack[|stack| - 1]];
      }
      slots, seen := slots - {slot}, seen + {slot};
    }
    assert seen == stacks.Keys;
  }

  lemma SortedTops(stacks: Stacks, tops: seq<Entry>)
    requires forall e :: e in tops <==> e in Tops(stacks)
    requires TopsApart(stacks) ==> DistinctIds(tops)
    ensures TopsApart(stacks) ==>
      Rising(Sort(ByRecord, tops)) && forall e :: e in Sort(ByRecord, tops) <==> e in Tops(stacks)
  {
    if TopsApart(stacks) {
      SortRises(tops);
    }
  }
}
