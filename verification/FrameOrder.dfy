/** Query frames and the order in which the engines return them: by binding, then by provenance.
    Bindings compare like ordered maps, entry by entry in key order; strings compare bytewise. */
module FrameOrder {
  import opened Words
  import opened Facts
  import opened Orders

  datatype Frame = Frame(binding: Binding, provenance: seq<Name>)

  predicate ByteLe(a: byte, b: byte) { a <= b }

  predicate NameLe(a: Name, b: Name) { LexLe(ByteLe, a, b) }

  function Rank(value: BoundValue): nat {
    match value
    case BoundEntity(_) => 0
    case BoundLiteral(_) => 1
    case BoundPredicate(_) => 2
  }

  predicate ValueLe(a: BoundValue, b: BoundValue) {
    match (a, b)
    case (BoundEntity(x), BoundEntity(y)) => x <= y
    case (BoundLiteral(x), BoundLiteral(y)) => NameLe(x, y)
    case (BoundPredicate(x), BoundPredicate(y)) => NameLe(x, y)
    case _ => Rank(a) < Rank(b)
  }

  predicate ItemLe(a: (Name, BoundValue), b: (Name, BoundValue)) {
    if a.0 == b.0 then ValueLe(a.1, b.1) else NameLe(a.0, b.0)
  }

  lemma NameLeTotal()
    ensures TotalOrder(NameLe)
  {
    forall a: Name, b: Name {
      LexConnected(ByteLe, a, b);
    }
    forall a: Name, b: Name, c: Name | NameLe(a, b) && NameLe(b, c) {
      LexTransitive(ByteLe, a, b, c);
    }
  }

  lemma ItemLeTotal()
    ensures TotalOrder(ItemLe)
  {
    NameLeTotal();
  }

  predicate ProvenanceLe(a: seq<Name>, b: seq<Name>) { LexLe(NameLe, a, b) }

  lemma NamesConnected(a: Name, b: Name)
    ensures NameLe(a, b) || NameLe(b, a)
  {
    LexConnected(ByteLe, a, b);
  }

  lemma NamesTransitive(a: Name, b: Name, c: Name)
    requires NameLe(a, b) && NameLe(b, c)
    ensures NameLe(a, c)
  {
    LexTransitive(ByteLe, a, b, c);
  }

  lemma {:induction false} MinimumExists(names: set<Name>)
    requires names != {}
    ensures exists m :: m in names && forall n :: n in names ==> NameLe(m, n)
    decreases names
  {
    hide NameLe;
    var x :| x in names;
    NamesConnected(x, x);
    if names == {x} {
      assert forall n :: n in names ==> NameLe(x, n);
    } else {
      var rest := names - {x};
      MinimumExists(rest);
      var m :| m in rest && forall n :: n in rest ==> NameLe(m, n);
      NamesConnected(x, m);
      var least := if NameLe(x, m) then x else m;
      forall n | n in names ensures NameLe(least, n) {
        if n != x && least == x {
          NamesTransitive(x, m, n);
        }
      }
    }
  }

  function Minimum(names: set<Name>): (m: Name)
    requires names != {}
    ensures m in names && forall n :: n in names ==> NameLe(m, n)
  {
    MinimumExists(names);
    NameLeTotal();
    var m :| m in names && forall n :: n in names ==> NameLe(m, n);
    m
  }

  /** The entries of an ordered map, in key order. */
  function Items(binding: Binding): seq<(Name, BoundValue)>
    decreases |binding|
  {
    if binding == map[] then []
    else
      var k := Minimum(binding.Keys);
      [(k, binding[k])] + Items(binding - {k})
  }

  lemma {:induction false} ItemsInjective(a: Binding, b: Binding)
    requires Items(a) == Items(b)
    ensures a == b
    decreases |a|
  {
    assert a != map[] ==> |Items(a)| > 0;
    assert b != map[] ==> |Items(b)| > 0;
    if a != map[] && b != map[] {
      var k := Minimum(a.Keys);
      assert Items(a)[0] == (k, a[k]) && Items(a)[1..] == Items(a - {k});
      var j := Minimum(b.Keys);
      assert Items(b)[0] == (j, b[j]) && Items(b)[1..] == Items(b - {j});
      ItemsInjective(a - {k}, b - {k});
      assert a == (a - {k})[k := a[k]] && b == (b - {k})[k := b[k]];
    }
  }

  predicate BindingLe(a: Binding, b: Binding) { LexLe(ItemLe, Items(a), Items(b)) }

  predicate FrameLe(a: Frame, b: Frame) {
    if a.binding == b.binding then ProvenanceLe(a.provenance, b.provenance) else BindingLe(a.binding, b.binding)
  }

  lemma BindingLeTotal()
    ensures TotalOrder(BindingLe)
  {
    ItemLeTotal();
    forall a: Binding, b: Binding ensures BindingLe(a, b) || BindingLe(b, a)
      ensures BindingLe(a, b) && BindingLe(b, a) ==> a == b
    {
      LexConnected(ItemLe, Items(a), Items(b));
      if Items(a) == Items(b) {
        ItemsInjective(a, b);
      }
    }
    forall a: Binding, b: Binding, c: Binding | BindingLe(a, b) && BindingLe(b, c) ensures BindingLe(a, c) {
      LexTransitive(ItemLe, Items(a), Items(b), Items(c));
    }
  }

  lemma ProvenanceLeTotal()
    ensures TotalOrder(ProvenanceLe)
  {
    NameLeTotal();
    forall a: seq<Name>, b: seq<Name> {
      LexConnected(NameLe, a, b);
    }
    forall a: seq<Name>, b: seq<Name>, c: seq<Name> | ProvenanceLe(a, b) && ProvenanceLe(b, c) {
      LexTransitive(NameLe, a, b, c);
    }
  }

  lemma FrameLeTotal()
    ensures TotalOrder(FrameLe)
  {
    BindingLeTotal();
    ProvenanceLeTotal();
  }

  // ---- What the order is ----

  /** Entities by number, before literals byte by byte, before predicates byte by byte. */
  ghost predicate Earlier(a: BoundValue, b: BoundValue) {
    match (a, b)
    case (BoundEntity(x), BoundEntity(y)) => x < y
    case (BoundLiteral(x), BoundLiteral(y)) => exists k: nat :: DiffersAt(ByteLe, x, y, k)
    case (BoundPredicate(x), BoundPredicate(y)) => exists k: nat :: DiffersAt(ByteLe, x, y, k)
    case (BoundEntity(_), _) => true
    case (BoundLiteral(_), BoundPredicate(_)) => true
    case _ => false
  }

  lemma ValuesCompare(a: BoundValue, b: BoundValue)
    ensures ValueLe(a, b) <==> a == b || Earlier(a, b)
  {
    match (a, b)
    case (BoundLiteral(x), BoundLiteral(y)) => LexExactly(ByteLe, x, y);
    case (BoundPredicate(x), BoundPredicate(y)) => LexExactly(ByteLe, x, y);
    case _ =>
  }

  /** The variable before which the two bindings agree. */
  ghost predicate DiffersFirst(a: Binding, b: Binding, x: Name)
    requires a.Keys == b.Keys
  {
    x in a && a[x] != b[x] && forall y :: y in a && y != x && NameLe(y, x) ==> a[y] == b[y]
  }

  /** Bindings of the same variables compare by the first variable, byte by byte, in which they differ, and there by
      its value. */
  lemma {:induction false} BindingsCompare(a: Binding, b: Binding, x: Name)
    requires a.Keys == b.Keys && DiffersFirst(a, b, x)
    ensures BindingLe(a, b) <==> Earlier(a[x], b[x])
    decreases |a|
  {
    var k := Minimum(a.Keys);
    assert b.Keys == a.Keys && Minimum(b.Keys) == k;
    assert Items(a)[0] == (k, a[k]) && Items(a)[1..] == Items(a - {k});
    assert Items(b)[0] == (k, b[k]) && Items(b)[1..] == Items(b - {k});
    if k == x {
      ValuesCompare(a[x], b[x]);
    } else {
      assert NameLe(k, x);
      BindingsCompare(a - {k}, b - {k}, x);
    }
  }

  /** Rows with the same binding compare by the first slot, byte by byte, in which their provenance differs. */
  lemma FramesCompare(a: Frame, b: Frame)
    ensures a.binding == b.binding ==>
      (FrameLe(a, b) <==> a.provenance == b.provenance || exists k: nat :: DiffersAt(NameLe, a.provenance, b.provenance, k))
    ensures a.binding != b.binding ==> (FrameLe(a, b) <==> BindingLe(a.binding, b.binding))
  {
    hide BindingLe;
    LexExactly(NameLe, a.provenance, b.provenance);
  }
}
