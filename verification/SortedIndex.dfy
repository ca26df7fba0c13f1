/** Sorted string tables and sorted triple indexes, searched by halving. */
module SortedIndex {
  import opened Words
  import opened Facts
  import opened Orders
  import opened FrameOrder

  // ---- String tables ----

  /** Strictly ascending, so every name has one token. */
  ghost predicate Strict(table: seq<Name>) {
    forall i, j :: 0 <= i < j < |table| ==> table[i] != table[j] && NameLe(table[i], table[j])
  }

  function Bisect(table: seq<Name>, name: Name, low: nat, high: nat): (token: Option<nat>)
    requires low <= high <= |table|
    ensures token.Some? ==> token.value < |table| && table[token.value] == name
    decreases high - low
  {
    if low >= high then None
    else
      var middle := low + (high - low) / 2;
      if table[middle] == name then Some(middle)
      else if NameLe(table[middle], name) then Bisect(table, name, middle + 1, high)
      else Bisect(table, name, low, middle)
  }

  function TokenOf(table: seq<Name>, name: Name): (token: Option<nat>)
    ensures token.Some? ==> token.value < |table| && table[token.value] == name
  {
    Bisect(table, name, 0, |table|)
  }

  method LookupToken(table: seq<Name>, name: Name) returns (token: Option<nat>)
    ensures token == TokenOf(table, name)
  {
    var low, high := 0, |table|;
    while low < high
      invariant low <= high <= |table|
      invariant Bisect(table, name, low, high) == TokenOf(table, name)
    {
      var middle := low + (high - low) / 2;
      if table[middle] == name {
        return Some(middle);
      } else if NameLe(table[middle], name) {
        low := middle + 1;
      } else {
        high := middle;
      }
    }
    token := None;
  }

  lemma {:induction false} BisectFinds(table: seq<Name>, name: Name, low: nat, high: nat, i: nat)
    requires Strict(table) && low <= i < high <= |table| && table[i] == name
    ensures Bisect(table, name, low, high) == Some(i)
    decreases high - low
  {
    NameLeTotal();
    var middle := low + (high - low) / 2;
    if table[middle] == name {
    } else if NameLe(table[middle], name) {
      assert middle < i;
      BisectFinds(table, name, middle + 1, high, i);
    } else {
      assert i < middle;
      BisectFinds(table, name, low, middle, i);
    }
  }

  /** The search finds a name exactly when the table holds it, and finds its only place. */
  lemma TokenIsPlace(table: seq<Name>, name: Name)
    requires Strict(table)
    ensures TokenOf(table, name).Some? <==> name in table
    ensures forall i :: 0 <= i < |table| && table[i] == name ==> TokenOf(table, name) == Some(i)
  {
    if name in table {
      var i :| 0 <= i < |table| && table[i] == name;
      BisectFinds(table, name, 0, |table|, i);
    }
  }

  /** A set of names as a strictly ascending table. */
  function SortedNames(names: set<Name>): (r: seq<Name>)
    ensures forall name :: name in r <==> name in names
    ensures |r| == |names|
  {
    if names == {} then []
    else
      var least := Minimum(names);
      [least] + SortedNames(names - {least})
  }

  lemma {:induction false} SortedNamesStrict(names: set<Name>)
    ensures Strict(SortedNames(names))
    decreases |names|
  {
    if names != {} {
      var least := Minimum(names);
      var rest := SortedNames(names - {least});
      SortedNamesStrict(names - {least});
      assert forall i :: 0 <= i < |rest| ==> rest[i] in names - {least};
    }
  }

  // ---- Triple indexes ----

  datatype IndexEntry = IndexEntry(first: nat, second: nat, third: nat, record: nat)

  predicate NatLe(a: nat, b: nat) { a <= b }

  predicate KeyLe(a: seq<nat>, b: seq<nat>) { LexLe(NatLe, a, b) }

  predicate KeyLess(a: seq<nat>, b: seq<nat>) { a != b && KeyLe(a, b) }

  function KeyOf(e: IndexEntry): (key: seq<nat>)
    ensures |key| == 3
  {
    [e.first, e.second, e.third]
  }

  ghost predicate SortedByKey(entries: seq<IndexEntry>) {
    forall i, j :: 0 <= i < j < |entries| ==> KeyLe(KeyOf(entries[i]), KeyOf(entries[j]))
  }

  lemma KeyOrder(a: seq<nat>, b: seq<nat>)
    ensures KeyLe(a, b) || KeyLe(b, a)
    ensures KeyLe(a, b) && KeyLe(b, a) ==> a == b
  {
    LexConnected(NatLe, a, b);
  }

  lemma {:induction false} PrefixOrder(a: seq<nat>, b: seq<nat>, n: nat)
    requires |a| == |b| && n <= |a| && KeyLe(a, b)
    ensures KeyLe(a[..n], b[..n])
    decreases n
  {
    if n > 0 {
      if a[0] == b[0] {
        PrefixOrder(a[1..], b[1..], n - 1);
        assert a[..n][1..] == a[1..][..n - 1] && b[..n][1..] == b[1..][..n - 1];
      }
    }
  }

  /** The first position whose key prefix is not below the key. */
  function LowerFrom(entries: seq<IndexEntry>, key: seq<nat>, low: nat, high: nat): (r: nat)
    requires low <= high <= |entries| && |key| <= 3
    ensures low <= r <= high
    decreases high - low
  {
    if low >= high then low
    else
      var middle := low + (high - low) / 2;
      if KeyLess(KeyOf(entries[middle])[..|key|], key) then LowerFrom(entries, key, middle + 1, high)
      else LowerFrom(entries, key, low, middle)
  }

  method LowerBound(entries: seq<IndexEntry>, key: seq<nat>) returns (low: nat)
    requires |key| <= 3
    ensures low == LowerFrom(entries, key, 0, |entries|)
  {
    var high := |entries|;
    low := 0;
    while low < high
      invariant low <= high <= |entries|
      invariant LowerFrom(entries, key, low, high) == LowerFrom(entries, key, 0, |entries|)
    {
      var middle := low + (high - low) / 2;
      if KeyLess(KeyOf(entries[middle])[..|key|], key) {
        low := middle + 1;
      } else {
        high := middle;
      }
    }
  }

  lemma {:induction false} LowerSplits(entries: seq<IndexEntry>, key: seq<nat>, low: nat, high: nat)
    requires SortedByKey(entries) && low <= high <= |entries| && |key| <= 3
    requires forall i :: 0 <= i < low ==> KeyLess(KeyOf(entries[i])[..|key|], key)
    requires forall i :: high <= i < |entries| ==> !KeyLess(KeyOf(entries[i])[..|key|], key)
    ensures var r := LowerFrom(entries, key, low, high);
      forall i :: 0 <= i < |entries| ==> (i < r <==> KeyLess(KeyOf(entries[i])[..|key|], key))
    decreases high - low
  {
    if low < high {
      var middle := low + (high - low) / 2;
      forall i | 0 <= i < |entries|
        ensures i <= middle && KeyLess(KeyOf(entries[middle])[..|key|], key) ==>
          KeyLess(KeyOf(entries[i])[..|key|], key)
        ensures i >= middle && !KeyLess(KeyOf(entries[middle])[..|key|], key) ==>
          !KeyLess(KeyOf(entries[i])[..|key|], key)
      {
        if i < middle {
          MonotoneBelow(KeyOf(entries[i]), KeyOf(entries[middle]), key);
        } else if i > middle {
          MonotoneBelow(KeyOf(entries[middle]), KeyOf(entries[i]), key);
        }
      }
      if KeyLess(KeyOf(entries[middle])[..|key|], key) {
        LowerSplits(entries, key, middle + 1, high);
      } else {
        LowerSplits(entries, key, low, middle);
      }
    }
  }

  lemma MonotoneBelow(a: seq<nat>, b: seq<nat>, key: seq<nat>)
    requires |a| == |b| == 3 && |key| <= 3 && KeyLe(a, b)
    ensures KeyLess(b[..|key|], key) ==> KeyLess(a[..|key|], key)
  {
    var x, y := a[..|key|], b[..|key|];
    PrefixOrder(a, b, |key|);
    if KeyLess(y, key) {
      LexTransitive(NatLe, x, y, key);
      if x == key {
        KeyOrder(x, y);
      }
    }
  }

  /** The positions whose key starts with a prefix, as the range between two lower bounds. A last component of
      2^64 - 1 cannot be counted up, and the range is left open at the end. */
  function RangeOf(entries: seq<IndexEntry>, key: seq<nat>): (r: (nat, nat))
    requires 0 < |key| <= 3
    ensures r.0 <= |entries| && r.1 <= |entries|
  {
    var lower := LowerFrom(entries, key, 0, |entries|);
    var last := |key| - 1;
    if key[last] == U64 - 1 then (lower, |entries|)
    else (lower, LowerFrom(entries, key[last := key[last] + 1], 0, |entries|))
  }

  method IndexRange(entries: seq<IndexEntry>, key: seq<nat>) returns (lower: nat, upper: nat)
    requires 0 < |key| <= 3
    ensures (lower, upper) == RangeOf(entries, key)
  {
    lower := LowerBound(entries, key);
    var last := |key| - 1;
    if key[last] == U64 - 1 {
      return lower, |entries|;
    }
    upper := LowerBound(entries, key[last := key[last] + 1]);
  }

  lemma {:induction false} BetweenSuccessors(a: seq<nat>, key: seq<nat>)
    requires |a| == |key| > 0
    ensures a == key <==> !KeyLess(a, key) && KeyLess(a, key[|key| - 1 := key[|key| - 1] + 1])
    decreases |a|
  {
    var next := key[|key| - 1 := key[|key| - 1] + 1];
    KeyOrder(a, key);
    if |a| == 1 {
      assert a == [a[0]] && key == [key[0]] && next == [key[0] + 1];
    } else {
      assert next[1..] == key[1..][|key| - 2 := key[|key| - 1] + 1];
      BetweenSuccessors(a[1..], key[1..]);
      assert a == [a[0]] + a[1..] && key == [key[0]] + key[1..] && next == [key[0]] + next[1..];
    }
  }

  /** The range holds exactly the entries whose key starts with the prefix. */
  ghost predicate Exact(entries: seq<IndexEntry>, key: seq<nat>)
    requires 0 < |key| <= 3
  {
    var (lower, upper) := RangeOf(entries, key);
    forall i :: 0 <= i < |entries| ==> (lower <= i < upper <==> KeyOf(entries[i])[..|key|] == key)
  }

  /** A last component that can be counted up closes the range exactly behind the prefix's group. */
  lemma RangeIsExact(entries: seq<IndexEntry>, key: seq<nat>)
    requires SortedByKey(entries) && 0 < |key| <= 3 && key[|key| - 1] < U64 - 1
    ensures RangeOf(entries, key).0 <= RangeOf(entries, key).1 && Exact(entries, key)
  {
    var next := key[|key| - 1 := key[|key| - 1] + 1];
    LowerSplits(entries, key, 0, |entries|);
    LowerSplits(entries, next, 0, |entries|);
    hide LowerFrom, KeyLess, KeyLe, SortedByKey;
    forall i | 0 <= i < |entries|
      ensures KeyOf(entries[i])[..|key|] == key <==> !KeyLess(KeyOf(entries[i])[..|key|], key) && KeyLess(KeyOf(entries[i])[..|key|], next)
    {
      BetweenSuccessors(KeyOf(entries[i])[..|key|], key);
    }
    var upper := RangeOf(entries, key).1;
    if upper < |entries| {
      NotBelowNext(KeyOf(entries[upper])[..|key|], key);
    }
  }

  lemma NotBelowNext(a: seq<nat>, key: seq<nat>)
    requires |a| == |key| > 0
    ensures !KeyLess(a, key[|key| - 1 := key[|key| - 1] + 1]) ==> !KeyLess(a, key)
  {
    if KeyLess(a, key) {
      KeyBelowNext(a, key);
    }
  }

  lemma KeyBelowNext(a: seq<nat>, key: seq<nat>)
    requires |a| == |key| > 0 && KeyLess(a, key)
    ensures KeyLess(a, key[|key| - 1 := key[|key| - 1] + 1])
  {
    var next := key[|key| - 1 := key[|key| - 1] + 1];
    BetweenSuccessors(key, key);
    LexTransitive(NatLe, a, key, next);
    if a == next {
      KeyOrder(key, next);
    }
  }

  /** With a prefix of one component the open range is exact as well, since no cell exceeds 2^64 - 1. */
  lemma OpenRangeIsExactForOne(entries: seq<IndexEntry>)
    requires SortedByKey(entries) && forall i :: 0 <= i < |entries| ==> entries[i].first < U64
    ensures var (lower, upper) := RangeOf(entries, [U64 - 1]);
      forall i :: 0 <= i < |entries| ==> (lower <= i < upper <==> entries[i].first == U64 - 1)
  {
    LowerSplits(entries, [U64 - 1], 0, |entries|);
    forall i | 0 <= i < |entries| ensures KeyLess(KeyOf(entries[i])[..1], [U64 - 1]) <==> entries[i].first < U64 - 1 {
      assert KeyOf(entries[i])[..1] == [entries[i].first];
    }
  }

  /** A last component of 2^64 - 1 leaves the range open at the end: it is exact exactly when no key prefix lies above
      the one looked for. */
  lemma OpenRangeIsExactWhenLast(entries: seq<IndexEntry>, key: seq<nat>)
    requires SortedByKey(entries) && 0 < |key| <= 3 && key[|key| - 1] == U64 - 1
    ensures Exact(entries, key) <==> forall i :: 0 <= i < |entries| ==> !KeyLess(key, KeyOf(entries[i])[..|key|])
  {
    LowerSplits(entries, key, 0, |entries|);
    hide LowerFrom, SortedByKey, KeyLe;
    forall i | 0 <= i < |entries|
      ensures KeyLess(KeyOf(entries[i])[..|key|], key) || KeyOf(entries[i])[..|key|] == key || KeyLess(key, KeyOf(entries[i])[..|key|])
      ensures KeyLess(key, KeyOf(entries[i])[..|key|]) ==> !KeyLess(KeyOf(entries[i])[..|key|], key)
    {
      KeyOrder(KeyOf(entries[i])[..|key|], key);
    }
  }

  /** Two entries of which the second, in a later group, falls into the open range of the first. */
  lemma OpenRangeIsInexact(entries: seq<IndexEntry>)
    requires entries == [IndexEntry(0, U64 - 1, 0, 0), IndexEntry(1, 0, 0, 1)]
    ensures SortedByKey(entries) && !Exact(entries, [0, U64 - 1])
  {
    var key := [0, U64 - 1];
    assert KeyOf(entries[0])[..2] == key && KeyOf(entries[1])[..2] == [1, 0];
    assert KeyLess(key, KeyOf(entries[1])[..2]);
    OpenRangeIsExactWhenLast(entries, key);
  }
}
