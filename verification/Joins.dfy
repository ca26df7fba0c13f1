/** The bag of answers of a join, as a nested sum over the active entries, and the laws that let a
    planner reorder it. Each answer is a binding with a tag; `push` adds a slot to the tag. */
module Joins {
  import opened Facts

  ghost function SumSeq<T, K>(s: seq<T>, f: T -> multiset<K>): multiset<K> {
    if s == [] then multiset{} else f(s[0]) + SumSeq(s[1..], f)
  }

  lemma {:induction false} SumEqual<T, K>(s: seq<T>, f: T -> multiset<K>, g: T -> multiset<K>)
    requires forall x :: x in s ==> f(x) == g(x)
    ensures SumSeq(s, f) == SumSeq(s, g)
    decreases |s|
  {
    if s != [] {
      SumEqual(s[1..], f, g);
    }
  }

  lemma {:induction false} SumEmpty<T, K>(s: seq<T>, f: T -> multiset<K>)
    requires forall x :: x in s ==> f(x) == multiset{}
    ensures SumSeq(s, f) == multiset{}
    decreases |s|
  {
    if s != [] {
      SumEmpty(s[1..], f);
    }
  }

  lemma {:induction false} SumPlus<T, K>(s: seq<T>, f: T -> multiset<K>, g: T -> multiset<K>, h: T -> multiset<K>)
    requires forall x :: x in s ==> h(x) == f(x) + g(x)
    ensures SumSeq(s, h) == SumSeq(s, f) + SumSeq(s, g)
    decreases |s|
  {
    if s != [] {
      SumPlus(s[1..], f, g, h);
    }
  }

  lemma {:induction false} SumConcat<T, K>(s: seq<T>, t: seq<T>, f: T -> multiset<K>)
    ensures SumSeq(s + t, f) == SumSeq(s, f) + SumSeq(t, f)
    decreases |s|
  {
    if s == [] {
      assert s + t == t;
    } else {
      assert (s + t)[1..] == s[1..] + t;
      SumConcat(s[1..], t, f);
    }
  }

  lemma SumRemove<T, K>(s: seq<T>, i: nat, f: T -> multiset<K>)
    requires i < |s|
    ensures SumSeq(s, f) == f(s[i]) + SumSeq(s[..i] + s[i + 1..], f)
  {
    var before, x, after := s[..i], s[i], s[i + 1..];
    assert s == before + ([x] + after) && ([x] + after)[1..] == after;
    SumConcat(before, [x] + after, f);
    SumConcat(before, after, f);
  }

  /** Only the terms that contribute need to agree, and only up to order. */
  lemma {:induction false} SumPermutation<T, K>(s: seq<T>, t: seq<T>, f: T -> multiset<K>)
    requires forall x :: f(x) != multiset{} ==> multiset(s)[x] == multiset(t)[x]
    ensures SumSeq(s, f) == SumSeq(t, f)
    decreases |s|
  {
    if s == [] {
      SumEmpty(t, f);
    } else {
      assert s == [s[0]] + s[1..];
      assert multiset(s) == multiset{s[0]} + multiset(s[1..]);
      if f(s[0]) == multiset{} {
        SumPermutation(s[1..], t, f);
      } else {
        assert s[0] in multiset(t);
        var i :| 0 <= i < |t| && t[i] == s[0];
        var u := t[..i] + t[i + 1..];
        assert t == t[..i] + ([t[i]] + t[i + 1..]);
        assert multiset(t) == multiset(u) + multiset{s[0]};
        SumPermutation(s[1..], u, f);
        SumRemove(t, i, f);
      }
    }
  }

  ghost function Row<S, T, K>(g: (S, T) -> multiset<K>, x: S): T -> multiset<K> {
    y => g(x, y)
  }

  ghost function Column<S, T, K>(g: (S, T) -> multiset<K>, y: T): S -> multiset<K> {
    x => g(x, y)
  }

  ghost function RowSum<S, T, K>(t: seq<T>, g: (S, T) -> multiset<K>): S -> multiset<K> {
    x => SumSeq(t, Row(g, x))
  }

  ghost function ColumnSum<S, T, K>(s: seq<S>, g: (S, T) -> multiset<K>): T -> multiset<K> {
    y => SumSeq(s, Column(g, y))
  }

  /** A double sum may be taken in either order. */
  lemma {:induction false} SumSwap<S, T, K>(s: seq<S>, t: seq<T>, g: (S, T) -> multiset<K>)
    ensures SumSeq(s, RowSum(t, g)) == SumSeq(t, ColumnSum(s, g))
    decreases |s|
  {
    if s == [] {
      SumEmpty(t, ColumnSum(s, g));
    } else {
      SumSwap(s[1..], t, g);
      var x := s[0];
      forall y ensures ColumnSum(s, g)(y) == g(x, y) + ColumnSum(s[1..], g)(y) {
        assert SumSeq(s, Column(g, y)) == g(x, y) + SumSeq(s[1..], Column(g, y));
      }
      SumPlus(t, Row(g, x), ColumnSum(s[1..], g), ColumnSum(s, g));
    }
  }

  lemma TransposeSums<S, K>(s: seq<S>, g: (S, S) -> multiset<K>, h: (S, S) -> multiset<K>)
    requires forall x, y :: g(x, y) == h(y, x)
    ensures SumSeq(s, ColumnSum(s, g)) == SumSeq(s, RowSum(s, h))
  {
    forall y | y in s ensures ColumnSum(s, g)(y) == RowSum(s, h)(y) {
      SumEqual(s, Column(g, y), Row(h, y));
    }
    SumEqual(s, ColumnSum(s, g), RowSum(s, h));
  }

  // ---- The bag of answers ----

  ghost function JoinBag<K>(active: seq<Entry>, ps: seq<Pattern>, b: Binding, k: K,
                            push: (K, Name) -> K): multiset<(Binding, K)>
    decreases |ps|, 2
  {
    if ps == [] then multiset{(b, k)} else SumSeq(active, BranchTerm(active, ps, b, k, push))
  }

  /** What one entry contributes for the first pattern. */
  ghost function Branch<K>(active: seq<Entry>, ps: seq<Pattern>, b: Binding, k: K, push: (K, Name) -> K, e: Entry)
    : multiset<(Binding, K)>
    requires ps != []
    decreases |ps|, 0
  {
    match UnifyPattern(ps[0], e.fact, b)
    case None => multiset{}
    case Some(c) => JoinBag(active, ps[1..], c, push(k, e.slot), push)
  }

  ghost function BranchTerm<K>(active: seq<Entry>, ps: seq<Pattern>, b: Binding, k: K, push: (K, Name) -> K)
    : Entry -> multiset<(Binding, K)>
    requires ps != []
    decreases |ps|, 1
  {
    e => Branch(active, ps, b, k, push, e)
  }

  ghost predicate Commutative<K(!new)>(push: (K, Name) -> K) {
    forall k, s, t :: push(push(k, s), t) == push(push(k, t), s)
  }

  /** What a pair of entries contributes for the first two patterns. */
  ghost function Pair<K>(active: seq<Entry>, p: Pattern, q: Pattern, rest: seq<Pattern>, b: Binding, k: K,
                   push: (K, Name) -> K, e: Entry, f: Entry): multiset<(Binding, K)> {
    match UnifyTwo(p, e.fact, q, f.fact, b)
    case None => multiset{}
    case Some(c) => JoinBag(active, rest, c, push(push(k, e.slot), f.slot), push)
  }

  ghost function PairTerm<K>(active: seq<Entry>, p: Pattern, q: Pattern, rest: seq<Pattern>, b: Binding, k: K,
                       push: (K, Name) -> K): (Entry, Entry) -> multiset<(Binding, K)> {
    (e, f) => Pair(active, p, q, rest, b, k, push, e, f)
  }

  lemma JoinTwo<K>(active: seq<Entry>, p: Pattern, q: Pattern, rest: seq<Pattern>, b: Binding, k: K,
                   push: (K, Name) -> K)
    ensures JoinBag(active, [p, q] + rest, b, k, push)
         == SumSeq(active, RowSum(active, PairTerm(active, p, q, rest, b, k, push)))
  {
    var ps := [p, q] + rest;
    assert ps[1..] == [q] + rest && ([q] + rest)[1..] == rest;
    var g := PairTerm(active, p, q, rest, b, k, push);
    forall e: Entry ensures Branch(active, ps, b, k, push, e) == RowSum(active, g)(e) {
      var row := Row(g, e);
      match UnifyPattern(p, e.fact, b)
      case None =>
        SumEmpty(active, row);
      case Some(c) =>
        var second := BranchTerm(active, [q] + rest, c, push(k, e.slot), push);
        forall f: Entry ensures second(f) == row(f) {
          assert second(f) == Branch(active, [q] + rest, c, push(k, e.slot), push, f);
        }
        SumEqual(active, second, row);
    }
    SumEqual(active, BranchTerm(active, ps, b, k, push), RowSum(active, g));
  }

  lemma JoinSwap<K(!new)>(active: seq<Entry>, p: Pattern, q: Pattern, rest: seq<Pattern>, b: Binding, k: K,
                   push: (K, Name) -> K)
    requires Commutative(push)
    ensures JoinBag(active, [p, q] + rest, b, k, push) == JoinBag(active, [q, p] + rest, b, k, push)
  {
    JoinTwo(active, p, q, rest, b, k, push);
    JoinTwo(active, q, p, rest, b, k, push);
    var g, h := PairTerm(active, p, q, rest, b, k, push), PairTerm(active, q, p, rest, b, k, push);
    SumSwap(active, active, g);
    forall e: Entry, f: Entry ensures g(e, f) == h(f, e) {
      UnifyCommutes(p, e.fact, q, f.fact, b);
    }
    TransposeSums(active, g, h);
  }

  function Without<T>(s: seq<T>, i: nat): seq<T>
    requires i < |s|
  {
    s[..i] + s[i + 1..]
  }

  /** Any pattern may be joined first. */
  lemma {:induction false} JoinFront<K(!new)>(active: seq<Entry>, ps: seq<Pattern>, i: nat, b: Binding, k: K,
                                       push: (K, Name) -> K)
    requires Commutative(push) && i < |ps|
    ensures JoinBag(active, ps, b, k, push) == JoinBag(active, [ps[i]] + Without(ps, i), b, k, push)
    decreases |ps|
  {
    if i == 0 {
      assert [ps[0]] + Without(ps, 0) == ps;
    } else {
      var p, tail := ps[0], ps[1..];
      var moved := [tail[i - 1]] + Without(tail, i - 1);
      var qs := [p] + moved;
      assert qs[1..] == moved;
      var one, two := BranchTerm(active, ps, b, k, push), BranchTerm(active, qs, b, k, push);
      forall e: Entry ensures one(e) == two(e) {
        assert one(e) == Branch(active, ps, b, k, push, e) && two(e) == Branch(active, qs, b, k, push, e);
        match UnifyPattern(p, e.fact, b)
        case None =>
        case Some(c) => JoinFront(active, tail, i - 1, c, push(k, e.slot), push);
      }
      SumEqual(active, one, two);
      var rest := Without(tail, i - 1);
      assert qs == [p, ps[i]] + rest;
      JoinSwap(active, p, ps[i], rest, b, k, push);
      assert [ps[i], p] + rest == [ps[i]] + Without(ps, i);
    }
  }
}
