/** What queries return: naive enumeration of all tuples of active facts is the reference, and every
    plan over every faithful candidate lookup agrees with it. */
module QueryLaws {
  import opened Facts
  import opened Orders
  import opened FrameOrder
  import opened Joins
  import opened Query

  // ---- The in-memory lookup: keep, in record order, the entries that agree on the known parts ----

  predicate Agrees(p: Pattern, b: Binding, fact: Fact) {
    && (var s := ResolvedAtom(p.subject, b); s.Some? ==> s.value == fact.subject)
    && (var r := ResolvedPredicate(p.relation, b); r.Some? ==> r.value == fact.relation)
    && (var t := ResolvedAtom(p.target, b); t.Some? ==> t.value == fact.target)
  }

  function Select(active: seq<Entry>, p: Pattern, b: Binding): (r: seq<Entry>)
    ensures forall e :: e in r <==> e in active && Agrees(p, b, e.fact)
  {
    if active == [] then []
    else (if Agrees(p, b, active[0].fact) then [active[0]] else []) + Select(active[1..], p, b)
  }

  function SelectFrom(active: seq<Entry>): Candidates {
    (p, b) => Select(active, p, b)
  }

  // ---- The reference: every tuple of active facts, one per pattern ----

  function Prefixed(i: nat, tuples: seq<seq<nat>>): (r: seq<seq<nat>>)
    ensures |r| == |tuples|
    ensures forall j :: 0 <= j < |r| ==> r[j] == [i] + tuples[j]
  {
    seq(|tuples|, j requires 0 <= j < |tuples| => [i] + tuples[j])
  }

  function TuplesFrom(i: nat, n: nat, tails: seq<seq<nat>>): seq<seq<nat>>
    decreases n - i
  {
    if i >= n then [] else Prefixed(i, tails) + TuplesFrom(i + 1, n, tails)
  }

  /** All `k`-tuples of numbers below `n`, in lexicographic order. */
  function Tuples(n: nat, k: nat): seq<seq<nat>> {
    if k == 0 then [[]] else TuplesFrom(0, n, Tuples(n, k - 1))
  }

  ghost predicate IsTuple(t: seq<nat>, n: nat, k: nat) {
    |t| == k && forall i :: 0 <= i < k ==> t[i] < n
  }

  lemma {:induction false} TuplesFromMembers(i: nat, n: nat, tails: seq<seq<nat>>)
    requires i <= n
    ensures forall t :: t in TuplesFrom(i, n, tails) <==> t != [] && i <= t[0] < n && t[1..] in tails
    decreases n - i
  {
    if i < n {
      TuplesFromMembers(i + 1, n, tails);
      forall t ensures t in Prefixed(i, tails) <==> t != [] && t[0] == i && t[1..] in tails {
        if t != [] && t[0] == i && t[1..] in tails {
          var j :| 0 <= j < |tails| && tails[j] == t[1..];
          assert Prefixed(i, tails)[j] == t;
        }
      }
    }
  }

  /** The enumeration reaches every tuple and nothing else. */
  lemma {:induction false} TuplesAreAll(n: nat, k: nat)
    ensures forall t :: t in Tuples(n, k) <==> IsTuple(t, n, k)
    decreases k
  {
    if k > 0 {
      TuplesFromMembers(0, n, Tuples(n, k - 1));
      TuplesAreAll(n, k - 1);
      forall t ensures t in Tuples(n, k) <==> IsTuple(t, n, k) {
        assert t != [] ==> (IsTuple(t, n, k) <==> t[0] < n && IsTuple(t[1..], n, k - 1));
      }
    }
  }

  lemma {:induction false} TuplesFromDistinct(i: nat, n: nat, tails: seq<seq<nat>>)
    requires i <= n && Distinct(tails)
    ensures Distinct(TuplesFrom(i, n, tails))
    decreases n - i
  {
    if i < n {
      TuplesFromDistinct(i + 1, n, tails);
      TuplesFromMembers(i + 1, n, tails);
      var here, later := Prefixed(i, tails), TuplesFrom(i + 1, n, tails);
      assert Distinct(here) by {
        forall a, b | 0 <= a < b < |here| ensures here[a] != here[b] {
          assert here[a][1..] == tails[a] && here[b][1..] == tails[b];
        }
      }
      forall a, b | 0 <= a < |here| && 0 <= b < |later| ensures here[a] != later[b] {
        assert later[b] in later;
      }
    }
  }

  ghost predicate Distinct<T>(s: seq<T>) {
    forall a, b :: 0 <= a < b < |s| ==> s[a] != s[b]
  }

  /** And reaches each of them once. */
  lemma {:induction false} TuplesDistinct(n: nat, k: nat)
    ensures Distinct(Tuples(n, k))
    decreases k
  {
    if k > 0 {
      TuplesDistinct(n, k - 1);
      TuplesFromDistinct(0, n, Tuples(n, k - 1));
    }
  }

  /** The frame a tuple stands for, if its facts unify with the patterns one after the other. */
  function TupleFrame(active: seq<Entry>, frame: Frame, ps: seq<Pattern>, t: seq<nat>): Option<Frame>
    decreases |ps|
  {
    if ps == [] then Some(frame)
    else if t == [] || t[0] >= |active| then None
    else match UnifyPattern(ps[0], active[t[0]].fact, frame.binding)
      case None => None
      case Some(b) => TupleFrame(active, Grow(frame, b, active[t[0]].slot), ps[1..], t[1..])
  }

  function Solved(active: seq<Entry>, frame: Frame, ps: seq<Pattern>, tuples: seq<seq<nat>>): seq<Frame> {
    if tuples == [] then []
    else
      (match TupleFrame(active, frame, ps, tuples[0]) case None => [] case Some(f) => [f])
      + Solved(active, frame, ps, tuples[1..])
  }

  function Naive(active: seq<Entry>, ps: seq<Pattern>): seq<Frame> {
    Solved(active, START, ps, Tuples(|active|, |ps|))
  }

  function AllVariables(ps: seq<Pattern>): set<Name> {
    if ps == [] then {} else Variables(ps[0]) + AllVariables(ps[1..])
  }

  /** What it means for a binding to solve a query with a given tuple of facts. */
  ghost predicate Solution(active: seq<Entry>, base: Binding, ps: seq<Pattern>, t: seq<nat>, b: Binding) {
    && IsTuple(t, |active|, |ps|)
    && Extends(b, base)
    && b.Keys == base.Keys + AllVariables(ps)
    && forall i :: 0 <= i < |ps| ==> Instance(ps[i], active[t[i]].fact, b)
  }

  function SlotsOf(active: seq<Entry>, t: seq<nat>): (r: seq<Name>)
    requires forall i :: 0 <= i < |t| ==> t[i] < |active|
    ensures |r| == |t| && forall i :: 0 <= i < |t| ==> r[i] == active[t[i]].slot
  {
    seq(|t|, i requires 0 <= i < |t| => active[t[i]].slot)
  }

  lemma ExtendsTransitive(a: Binding, b: Binding, c: Binding)
    requires Extends(a, b) && Extends(b, c)
    ensures Extends(a, c)
  {
  }

  lemma InstanceMonotone(p: Pattern, fact: Fact, small: Binding, large: Binding)
    requires Extends(large, small) && Instance(p, fact, small)
    ensures Instance(p, fact, large)
  {
    ExtendsPointwise(large, small);
  }

  lemma ExtendsSameKeys(large: Binding, small: Binding)
    requires Extends(large, small) && large.Keys == small.Keys
    ensures large == small
  {
    ExtendsPointwise(large, small);
  }

  /** Unifying fact by fact finds exactly the binding that instantiates every pattern at once, and records
      the slots of the facts it used, in order. */
  lemma {:induction false} TupleFrameIsSolution(active: seq<Entry>, frame: Frame, ps: seq<Pattern>, t: seq<nat>,
                                                b: Binding)
    requires IsTuple(t, |active|, |ps|)
    ensures Solution(active, frame.binding, ps, t, b)
      <==> TupleFrame(active, frame, ps, t) == Some(Frame(b, frame.provenance + SlotsOf(active, t)))
    decreases |ps|
  {
    if ps == [] {
      assert frame.provenance + SlotsOf(active, t) == frame.provenance;
      if Solution(active, frame.binding, ps, t, b) {
        ExtendsSameKeys(b, frame.binding);
      }
    } else {
      hide UnifyPattern, Variables, Instance, Solution;
      var e := active[t[0]];
      match UnifyPattern(ps[0], e.fact, frame.binding) {
        case None =>
          if Solution(active, frame.binding, ps, t, b) {
            SolutionUnifies(active, frame.binding, ps, t, b);
          }
        case Some(c) =>
          var next := Grow(frame, c, e.slot);
          TupleFrameIsSolution(active, next, ps[1..], t[1..], b);
          SolutionStep(active, frame.binding, ps, t, b, c);
          SlotsFirst(active, frame, c, t);
      }
    }
  }

  lemma SlotsFirst(active: seq<Entry>, frame: Frame, c: Binding, t: seq<nat>)
    requires t != [] && forall i :: 0 <= i < |t| ==> t[i] < |active|
    ensures Grow(frame, c, active[t[0]].slot).provenance + SlotsOf(active, t[1..]) == frame.provenance + SlotsOf(active, t)
  {
    assert frame.provenance + [active[t[0]].slot] + SlotsOf(active, t[1..])
        == frame.provenance + ([active[t[0]].slot] + SlotsOf(active, t[1..]));
  }

  lemma SolutionUnifies(active: seq<Entry>, base: Binding, ps: seq<Pattern>, t: seq<nat>, b: Binding)
    requires ps != [] && IsTuple(t, |active|, |ps|) && Solution(active, base, ps, t, b)
    ensures UnifyPattern(ps[0], active[t[0]].fact, base).Some?
  {
    hide UnifyPattern, Variables, Instance;
    assert Instance(ps[0], active[t[0]].fact, b);
    UnifyIsLeastInstance(ps[0], active[t[0]].fact, base);
  }

  lemma SolutionStep(active: seq<Entry>, base: Binding, ps: seq<Pattern>, t: seq<nat>, b: Binding, c: Binding)
    requires ps != [] && IsTuple(t, |active|, |ps|)
    requires UnifyPattern(ps[0], active[t[0]].fact, base) == Some(c)
    ensures Solution(active, base, ps, t, b) <==> Solution(active, c, ps[1..], t[1..], b)
  {
    var fact := active[t[0]].fact;
    UnifyIsLeastInstance(ps[0], fact, base);
    if Solution(active, base, ps, t, b) {
      assert Instance(ps[0], active[t[0]].fact, b);
      forall i | 0 <= i < |ps[1..]| ensures Instance(ps[1..][i], active[t[1..][i]].fact, b) {
        assert Instance(ps[i + 1], active[t[i + 1]].fact, b);
      }
    }
    if Solution(active, c, ps[1..], t[1..], b) {
      ExtendsTransitive(b, c, base);
      InstanceMonotone(ps[0], fact, c, b);
      forall i | 0 <= i < |ps| ensures Instance(ps[i], active[t[i]].fact, b) {
        if i > 0 {
          assert Instance(ps[1..][i - 1], active[t[1..][i - 1]].fact, b);
        }
      }
    }
  }

  // ---- The left-to-right plan is the naive enumeration, frame by frame ----

  lemma {:induction false} SolvedConcat(active: seq<Entry>, frame: Frame, ps: seq<Pattern>, a: seq<seq<nat>>,
                                        b: seq<seq<nat>>)
    ensures Solved(active, frame, ps, a + b) == Solved(active, frame, ps, a) + Solved(active, frame, ps, b)
    decreases |a|
  {
    if a == [] {
      assert a + b == b;
    } else {
      assert (a + b)[1..] == a[1..] + b;
      SolvedConcat(active, frame, ps, a[1..], b);
    }
  }

  lemma {:induction false} SolvedPrefixed(active: seq<Entry>, frame: Frame, ps: seq<Pattern>, i: nat,
                                          tails: seq<seq<nat>>)
    requires ps != [] && i < |active|
    ensures Solved(active, frame, ps, Prefixed(i, tails))
      == match UnifyPattern(ps[0], active[i].fact, frame.binding)
         case None => []
         case Some(b) => Solved(active, Grow(frame, b, active[i].slot), ps[1..], tails)
    decreases |tails|
  {
    if tails != [] {
      var all := Prefixed(i, tails);
      assert all[1..] == Prefixed(i, tails[1..]);
      assert all[0][1..] == tails[0];
      SolvedPrefixed(active, frame, ps, i, tails[1..]);
    }
  }

  /** The answers that one entry contributes, and those of the entries after it. */
  lemma SelectStep(cand: Candidates, active: seq<Entry>, o: Options, frame: Frame, p: Pattern, rest: seq<Pattern>,
                   i: nat)
    requires i < |active|
    ensures AnswersEach(cand, o, frame, p, rest, Select(active[i..], p, frame.binding))
      == AnswersVia(cand, o, frame, p, rest, active[i]) + AnswersEach(cand, o, frame, p, rest, Select(active[i + 1..], p, frame.binding))
  {
    hide AnswersVia, AnswersEach, Agrees;
    var e, later := active[i], Select(active[i + 1..], p, frame.binding);
    assert active[i..] == [e] + active[i + 1..];
    SelectFirst(e, active[i + 1..], p, frame.binding);
    if Agrees(p, frame.binding, e.fact) {
      AnswersFirst(cand, o, frame, p, rest, e, later);
    } else {
      NoAnswersVia(cand, o, frame, p, rest, e);
      assert [] + later == later;
    }
  }

  lemma SelectFirst(e: Entry, rest: seq<Entry>, p: Pattern, b: Binding)
    ensures Select([e] + rest, p, b) == (if Agrees(p, b, e.fact) then [e] else []) + Select(rest, p, b)
  {
    assert ([e] + rest)[1..] == rest;
  }

  lemma AnswersFirst(cand: Candidates, o: Options, frame: Frame, p: Pattern, rest: seq<Pattern>, e: Entry,
                     es: seq<Entry>)
    ensures AnswersEach(cand, o, frame, p, rest, [e] + es)
         == AnswersVia(cand, o, frame, p, rest, e) + AnswersEach(cand, o, frame, p, rest, es)
  {
    assert ([e] + es)[1..] == es;
  }

  lemma NoAnswersVia(cand: Candidates, o: Options, frame: Frame, p: Pattern, rest: seq<Pattern>, e: Entry)
    requires !Agrees(p, frame.binding, e.fact)
    ensures AnswersVia(cand, o, frame, p, rest, e) == []
  {
    if UnifyPattern(p, e.fact, frame.binding).Some? {
      UnifyNeedsKnownParts(p, e.fact, frame.binding);
    }
  }

  lemma {:induction false} LeftToRightFrom(active: seq<Entry>, o: Options, frame: Frame, ps: seq<Pattern>, i: nat)
    requires ps != [] && !o.optimize && i <= |active|
    ensures AnswersEach(SelectFrom(active), o, frame, ps[0], ps[1..], Select(active[i..], ps[0], frame.binding))
      == Solved(active, frame, ps, TuplesFrom(i, |active|, Tuples(|active|, |ps| - 1)))
    decreases |ps|, |active| - i + 1
  {
    var cand, p, rest, tails := SelectFrom(active), ps[0], ps[1..], Tuples(|active|, |ps| - 1);
    if i == |active| {
      assert active[i..] == [];
    } else {
      hide AnswersEach, AnswersVia, Select;
      SelectStep(cand, active, o, frame, p, rest, i);
      LeftToRightFrom(active, o, frame, ps, i + 1);
      SolvedConcat(active, frame, ps, Prefixed(i, tails), TuplesFrom(i + 1, |active|, tails));
      LeftToRightVia(active, o, frame, ps, i);
    }
  }

  lemma {:induction false} LeftToRightVia(active: seq<Entry>, o: Options, frame: Frame, ps: seq<Pattern>, i: nat)
    requires ps != [] && !o.optimize && i < |active|
    ensures AnswersVia(SelectFrom(active), o, frame, ps[0], ps[1..], active[i])
      == Solved(active, frame, ps, Prefixed(i, Tuples(|active|, |ps| - 1)))
    decreases |ps|, 0
  {
    hide UnifyPattern, Answers, Tuples, Select;
    SolvedPrefixed(active, frame, ps, i, Tuples(|active|, |ps| - 1));
    match UnifyPattern(ps[0], active[i].fact, frame.binding) {
      case None =>
      case Some(b) => LeftToRight(active, o, Grow(frame, b, active[i].slot), ps[1..]);
    }
  }

  lemma {:induction false} LeftToRight(active: seq<Entry>, o: Options, frame: Frame, ps: seq<Pattern>)
    requires !o.optimize
    ensures Answers(SelectFrom(active), o, frame, ps) == Solved(active, frame, ps, Tuples(|active|, |ps|))
    decreases |ps|, |active| + 2
  {
    if ps == [] {
      assert Solved(active, frame, ps, [[]]) == [frame] + Solved(active, frame, ps, [[]][1..]);
    } else {
      LeftToRightFrom(active, o, frame, ps, 0);
      assert active[0..] == active && Without(ps, 0) == ps[1..];
    }
  }

  // ---- Any plan, over any faithful lookup ----

  /** A lookup may return what it likes in any order, as long as it returns each entry that can still
      unify as often as the active list holds it. */
  ghost predicate Faithful(cand: Candidates, active: seq<Entry>) {
    forall p, b, e: Entry :: UnifyPattern(p, e.fact, b).Some? ==> multiset(cand(p, b))[e] == multiset(active)[e]
  }

  ghost predicate Tags<K(!new)>(tag: seq<Name> -> K, push: (K, Name) -> K) {
    forall slots, slot :: tag(slots + [slot]) == push(tag(slots), slot)
  }

  ghost function TagOf<K>(tag: seq<Name> -> K): Frame -> multiset<(Binding, K)> {
    (f: Frame) => multiset{(f.binding, tag(f.provenance))}
  }

  /** The answers as a bag of tagged bindings. */
  ghost function Tagged<K>(frames: seq<Frame>, tag: seq<Name> -> K): multiset<(Binding, K)> {
    SumSeq(frames, TagOf(tag))
  }

  lemma TaggedCons<K>(f: Frame, rest: seq<Frame>, tag: seq<Name> -> K)
    ensures Tagged([f] + rest, tag) == multiset{(f.binding, tag(f.provenance))} + Tagged(rest, tag)
  {
    assert ([f] + rest)[1..] == rest;
  }

  lemma {:induction false} AnswersAreJoin<K(!new)>(cand: Candidates, active: seq<Entry>, o: Options, frame: Frame,
                                            ps: seq<Pattern>,
                                                   tag: seq<Name> -> K, push: (K, Name) -> K)
    requires Faithful(cand, active) && Tags(tag, push)
    requires o.optimize ==> Commutative(push)
    ensures Tagged(Answers(cand, o, frame, ps), tag) == JoinBag(active, ps, frame.binding, tag(frame.provenance), push)
    decreases 2 * |ps|, 0
  {
    var k := tag(frame.provenance);
    if ps == [] {
      TaggedCons(frame, [], tag);
      assert [frame] + [] == [frame];
    } else {
      var i := Choose(cand, o, ps, frame.binding);
      var p, rest := ps[i], Without(ps, i);
      var first := [p] + rest;
      assert first[1..] == rest;
      if o.optimize {
        JoinFront(active, ps, i, frame.binding, k, push);
      } else {
        assert first == ps;
      }
      var es := cand(p, frame.binding);
      AnswersEachAreSum(cand, active, o, frame, p, rest, es, tag, push);
      var term := BranchTerm(active, first, frame.binding, k, push);
      forall e: Entry | term(e) != multiset{} ensures multiset(es)[e] == multiset(active)[e] {
        assert term(e) == Branch(active, first, frame.binding, k, push, e);
        assert UnifyPattern(p, e.fact, frame.binding).Some?;
      }
      SumPermutation(es, active, term);
    }
  }

  lemma {:induction false} AnswersEachAreSum<K(!new)>(cand: Candidates, active: seq<Entry>, o: Options, frame: Frame,
                                               p: Pattern,
                                                      rest: seq<Pattern>, es: seq<Entry>, tag: seq<Name> -> K, push: (K, Name) -> K)
    requires Faithful(cand, active) && Tags(tag, push)
    requires o.optimize ==> Commutative(push)
    ensures Tagged(AnswersEach(cand, o, frame, p, rest, es), tag)
         == SumSeq(es, BranchTerm(active, [p] + rest, frame.binding, tag(frame.provenance), push))
    decreases 2 * |rest| + 1, |es|
  {
    if es != [] {
      var first := [p] + rest;
      assert first[1..] == rest;
      var here := AnswersVia(cand, o, frame, p, rest, es[0]);
      SumConcat(here, AnswersEach(cand, o, frame, p, rest, es[1..]), TagOf(tag));
      AnswersEachAreSum(cand, active, o, frame, p, rest, es[1..], tag, push);
      match UnifyPattern(p, es[0].fact, frame.binding) {
        case None =>
        case Some(b) =>
          AnswersAreJoin(cand, active, o, Grow(frame, b, es[0].slot), rest, tag, push);
      }
      var term := BranchTerm(active, first, frame.binding, tag(frame.provenance), push);
      assert term(es[0]) == Branch(active, first, frame.binding, tag(frame.provenance), push, es[0]);
    }
  }

  lemma SelectIsFaithful(active: seq<Entry>)
    ensures Faithful(SelectFrom(active), active)
  {
    forall p, b, e: Entry | UnifyPattern(p, e.fact, b).Some?
      ensures multiset(SelectFrom(active)(p, b))[e] == multiset(active)[e]
    {
      UnifyNeedsKnownParts(p, e.fact, b);
      SelectKeepsCount(active, p, b, e);
    }
  }

  lemma {:induction false} SelectKeepsCount(active: seq<Entry>, p: Pattern, b: Binding, e: Entry)
    requires Agrees(p, b, e.fact)
    ensures multiset(Select(active, p, b))[e] == multiset(active)[e]
    decreases |active|
  {
    if active != [] {
      assert active == [active[0]] + active[1..];
      SelectKeepsCount(active[1..], p, b, e);
    }
  }

  // ---- Tags: nothing, the bag of slots, the slots in order ----

  function NoTag(slots: seq<Name>): () { () }
  function NoPush(k: (), slot: Name): () { () }
  function BagTag(slots: seq<Name>): multiset<Name> { multiset(slots) }
  function BagPush(k: multiset<Name>, slot: Name): multiset<Name> { k + multiset{slot} }
  function SeqTag(slots: seq<Name>): seq<Name> { slots }
  function SeqPush(k: seq<Name>, slot: Name): seq<Name> { k + [slot] }

  lemma PlanTag<K(!new)>(cand: Candidates, active: seq<Entry>, ps: seq<Pattern>, o: Options, tag: seq<Name> -> K,
                         push: (K, Name) -> K)
    requires Faithful(cand, active) && Tags(tag, push)
    requires o.optimize ==> Commutative(push)
    ensures Tagged(Answers(cand, o, START, ps), tag) == Tagged(Naive(active, ps), tag)
  {
    var plain := o.(optimize := false);
    SelectIsFaithful(active);
    LeftToRight(active, plain, START, ps);
    AnswersAreJoin(cand, active, o, START, ps, tag, push);
    AnswersAreJoin(SelectFrom(active), active, plain, START, ps, tag, push);
  }

  /** Greedy plan, left-to-right plan and naive enumeration return the same bag of bindings, each with the
      same slots up to order, whatever faithful lookup they use. */
  lemma EveryPlanIsNaive(cand: Candidates, active: seq<Entry>, ps: seq<Pattern>, o: Options)
    requires Faithful(cand, active)
    ensures Tagged(Answers(cand, o, START, ps), BagTag) == Tagged(Naive(active, ps), BagTag)
  {
    forall k: multiset<Name>, s: Name, t: Name ensures BagPush(BagPush(k, s), t) == BagPush(BagPush(k, t), s) {
      assert k + multiset{s} + multiset{t} == k + multiset{t} + multiset{s};
    }
    PlanTag(cand, active, ps, o, BagTag, BagPush);
  }

  lemma EveryPlanBindings(cand: Candidates, active: seq<Entry>, ps: seq<Pattern>, o: Options)
    requires Faithful(cand, active)
    ensures multiset(Bindings(Answers(cand, o, START, ps))) == multiset(Bindings(Naive(active, ps)))
  {
    PlanTag(cand, active, ps, o, NoTag, NoPush);
    SameBindings(Answers(cand, o, START, ps), Naive(active, ps));
  }

  /** Without planning the provenance is in pattern order too, so whole frames agree. */
  lemma FixedPlanFrames(cand: Candidates, active: seq<Entry>, ps: seq<Pattern>, o: Options)
    requires Faithful(cand, active) && !o.optimize
    ensures multiset(Answers(cand, o, START, ps)) == multiset(Naive(active, ps))
  {
    PlanTag(cand, active, ps, o, SeqTag, SeqPush);
    SameFrames(Answers(cand, o, START, ps), Naive(active, ps));
  }

  function Bindings(frames: seq<Frame>): (r: seq<Binding>)
    ensures |r| == |frames| && forall i :: 0 <= i < |r| ==> r[i] == frames[i].binding
  {
    seq(|frames|, i requires 0 <= i < |frames| => frames[i].binding)
  }

  function RowBindings(rows: seq<Row>): (r: seq<Binding>)
    ensures |r| == |rows| && forall i :: 0 <= i < |r| ==> r[i] == rows[i].binding
  {
    seq(|rows|, i requires 0 <= i < |rows| => rows[i].binding)
  }

  lemma {:induction false} BindingCount(frames: seq<Frame>, b: Binding)
    ensures multiset(Bindings(frames))[b] == Tagged(frames, NoTag)[(b, ())]
    decreases |frames|
  {
    if frames != [] {
      hide Tagged;
      BindingCount(frames[1..], b);
      TaggedCons(frames[0], frames[1..], NoTag);
      assert [frames[0]] + frames[1..] == frames;
      assert Bindings(frames) == [frames[0].binding] + Bindings(frames[1..]);
    }
  }

  lemma SameBindings(a: seq<Frame>, b: seq<Frame>)
    requires Tagged(a, NoTag) == Tagged(b, NoTag)
    ensures multiset(Bindings(a)) == multiset(Bindings(b))
  {
    forall x: Binding ensures multiset(Bindings(a))[x] == multiset(Bindings(b))[x] {
      BindingCount(a, x);
      BindingCount(b, x);
    }
  }

  lemma {:induction false} FrameCount(frames: seq<Frame>, f: Frame)
    ensures multiset(frames)[f] == Tagged(frames, SeqTag)[(f.binding, f.provenance)]
    decreases |frames|
  {
    if frames != [] {
      FrameCount(frames[1..], f);
      TaggedCons(frames[0], frames[1..], SeqTag);
      assert frames == [frames[0]] + frames[1..];
    }
  }

  lemma SameFrames(a: seq<Frame>, b: seq<Frame>)
    requires Tagged(a, SeqTag) == Tagged(b, SeqTag)
    ensures multiset(a) == multiset(b)
  {
    forall f: Frame ensures multiset(a)[f] == multiset(b)[f] {
      FrameCount(a, f);
      FrameCount(b, f);
    }
  }

  // ---- Rows ----

  lemma SortedFramesSortBindings(frames: seq<Frame>)
    ensures var sorted := Bindings(Sort(FrameLe, frames));
      Sorted(BindingLe, sorted) && multiset(sorted) == multiset(Bindings(frames))
  {
    FrameLeTotal();
    BindingLeTotal();
    SortSorts(FrameLe, frames);
    BindingsOfPermutation(Sort(FrameLe, frames), frames);
  }

  lemma {:induction false} BindingsOfPermutation(a: seq<Frame>, b: seq<Frame>)
    requires multiset(a) == multiset(b)
    ensures multiset(Bindings(a)) == multiset(Bindings(b))
  {
    var key := TagOf(NoTag);
    SumPermutation(a, b, key);
    SameBindings(a, b);
  }

  lemma SameBindingsSameRows(a: seq<Frame>, b: seq<Frame>)
    requires multiset(Bindings(a)) == multiset(Bindings(b))
    ensures Bindings(Sort(FrameLe, a)) == Bindings(Sort(FrameLe, b))
  {
    SortedFramesSortBindings(a);
    SortedFramesSortBindings(b);
    BindingLeTotal();
    SortedUnique(BindingLe, Bindings(Sort(FrameLe, a)), Bindings(Sort(FrameLe, b)));
  }

  ghost function Seen(frames: seq<Frame>): set<Binding> {
    set b | b in Bindings(frames)
  }

  lemma {:induction false} KeepFirstKeepsOnce(frames: seq<Frame>, seen: set<Binding>, b: Binding)
    ensures multiset(Bindings(KeepFirst(frames, seen)))[b] == if b in Seen(frames) && b !in seen then 1 else 0
    decreases |frames|
  {
    if frames != [] {
      var f := frames[0];
      assert Bindings(frames) == [f.binding] + Bindings(frames[1..]);
      var seen' := if f.binding in seen then seen else seen + {f.binding};
      KeepFirstKeepsOnce(frames[1..], seen', b);
      if f.binding !in seen {
        assert Bindings(KeepFirst(frames, seen)) == [f.binding] + Bindings(KeepFirst(frames[1..], seen'));
      }
    }
  }

  lemma SameBindingsSameDistinct(a: seq<Frame>, b: seq<Frame>)
    requires multiset(Bindings(a)) == multiset(Bindings(b))
    ensures multiset(Bindings(KeepFirst(a, {}))) == multiset(Bindings(KeepFirst(b, {})))
  {
    assert Seen(a) == Seen(b) by {
      forall x: Binding ensures x in Seen(a) <==> x in Seen(b) {
        assert x in Seen(a) <==> x in multiset(Bindings(a));
        assert x in Seen(b) <==> x in multiset(Bindings(b));
      }
    }
    forall x: Binding ensures multiset(Bindings(KeepFirst(a, {})))[x] == multiset(Bindings(KeepFirst(b, {})))[x] {
      KeepFirstKeepsOnce(a, {}, x);
      KeepFirstKeepsOnce(b, {}, x);
    }
  }

  function Kept(frames: seq<Frame>, o: Options): seq<Frame> {
    if o.distinct then KeepFirst(frames, {}) else frames
  }

  lemma UnlimitedRows(cand: Candidates, ps: seq<Pattern>, o: Options)
    requires o.limit.None?
    ensures QueryOf(cand, ps, o).rows == ToRows(Sort(FrameLe, Kept(Answers(cand, o, START, ps), o)), o.includeProvenance)
    ensures RowBindings(QueryOf(cand, ps, o).rows) == Bindings(Sort(FrameLe, Kept(Answers(cand, o, START, ps), o)))
  {
    UnlimitedOutput(cand, ps, o);
  }

  /** Without a limit, any two engines over the same active facts return the same bindings row by row,
      whatever plan each follows, with duplicates or without. */
  lemma EnginesAgree(c1: Candidates, c2: Candidates, active: seq<Entry>, ps: seq<Pattern>, o1: Options, o2: Options)
    requires Faithful(c1, active) && Faithful(c2, active)
    requires o1.limit.None? && o2.limit.None? && o1.distinct == o2.distinct
    ensures RowBindings(QueryOf(c1, ps, o1).rows) == RowBindings(QueryOf(c2, ps, o2).rows)
  {
    UnlimitedRows(c1, ps, o1);
    UnlimitedRows(c2, ps, o2);
    var a, b := Answers(c1, o1, START, ps), Answers(c2, o2, START, ps);
    EveryPlanBindings(c1, active, ps, o1);
    EveryPlanBindings(c2, active, ps, o2);
    if o1.distinct {
      SameBindingsSameDistinct(a, b);
    }
    SameBindingsSameRows(Kept(a, o1), Kept(b, o2));
  }

  /** With planning and deduplication both off the rows agree in full, provenance included. */
  lemma FixedPlanEnginesAgree(c1: Candidates, c2: Candidates, active: seq<Entry>, ps: seq<Pattern>, o: Options)
    requires Faithful(c1, active) && Faithful(c2, active)
    requires o.limit.None? && !o.optimize && !o.distinct
    ensures QueryOf(c1, ps, o).rows == QueryOf(c2, ps, o).rows
  {
    UnlimitedRows(c1, ps, o);
    UnlimitedRows(c2, ps, o);
    FixedPlanFrames(c1, active, ps, o);
    FixedPlanFrames(c2, active, ps, o);
    FrameLeTotal();
    SortOfPermutation(FrameLe, Answers(c1, o, START, ps), Answers(c2, o, START, ps));
  }
}
