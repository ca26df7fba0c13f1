/** The permutation indexes over active definitions, and why looking candidates up in them is exact. */
module Indexes {
  import opened Facts
  import opened Store
  import opened QueryLaws

  type Index<!K> = map<K, set<nat>>

  function SubjectOf(f: Fact): Atom { f.subject }
  function RelationOf(f: Fact): Name { f.relation }
  function TargetOf(f: Fact): Atom { f.target }
  function SubjectRelationOf(f: Fact): (Atom, Name) { (f.subject, f.relation) }
  function SubjectTargetOf(f: Fact): (Atom, Atom) { (f.subject, f.target) }
  function RelationTargetOf(f: Fact): (Name, Atom) { (f.relation, f.target) }
  function ExactOf(f: Fact): Fact { f }

  predicate AllFacts(log: seq<Record>, ids: set<nat>) {
    forall id :: id in ids ==> id < |log| && log[id].fact.Some?
  }

  /** What an index must be: every key some active fact has, with exactly the records that have it. */
  function IndexOf<K(==)>(log: seq<Record>, ids: set<nat>, key: Fact -> K): Index<K>
    requires AllFacts(log, ids)
  {
    map k | k in KeysOf(log, ids, key) :: WithKey(log, ids, key, k)
  }

  function KeysOf<K(==)>(log: seq<Record>, ids: set<nat>, key: Fact -> K): set<K>
    requires AllFacts(log, ids)
  {
    set id | id in ids :: key(log[id].fact.value)
  }

  function WithKey<K(==)>(log: seq<Record>, ids: set<nat>, key: Fact -> K, k: K): set<nat>
    requires AllFacts(log, ids)
  {
    set id | id in ids && key(log[id].fact.value) == k
  }

  function Bucket<K(==)>(index: Index<K>, key: K): set<nat> {
    if key in index then index[key] else {}
  }

  // ---- The three updates ----

  function InsertIndex<K(==)>(index: Index<K>, key: K, id: nat): Index<K> {
    index[key := Bucket(index, key) + {id}]
  }

  function RemoveIndex<K(==)>(index: Index<K>, key: K, id: nat): Index<K> {
    if key !in index then index
    else if index[key] - {id} == {} then index - {key}
    else index[key := index[key] - {id}]
  }

  function ReplaceIndex<K(==)>(index: Index<K>, key: K, old_id: nat, new_id: nat): Index<K> {
    if key in index then index[key := index[key] - {old_id} + {new_id}] else index
  }

  lemma InsertKeepsExact<K>(log: seq<Record>, ids: set<nat>, key: Fact -> K, id: nat)
    requires AllFacts(log, ids + {id})
    ensures InsertIndex(IndexOf(log, ids, key), key(log[id].fact.value), id) == IndexOf(log, ids + {id}, key)
  {
    var k := key(log[id].fact.value);
    var before, after := IndexOf(log, ids, key), IndexOf(log, ids + {id}, key);
    assert InsertIndex(before, k, id).Keys == after.Keys;
    forall x | x in after ensures InsertIndex(before, k, id)[x] == after[x] {
      assert after[x] == WithKey(log, ids + {id}, key, x);
    }
  }

  lemma RemoveKeepsExact<K>(log: seq<Record>, ids: set<nat>, key: Fact -> K, id: nat)
    requires AllFacts(log, ids) && id in ids
    ensures RemoveIndex(IndexOf(log, ids, key), key(log[id].fact.value), id) == IndexOf(log, ids - {id}, key)
  {
    var k := key(log[id].fact.value);
    var before, after := IndexOf(log, ids, key), IndexOf(log, ids - {id}, key);
    var removed := RemoveIndex(before, k, id);
    forall x ensures x in removed <==> x in after {
      if x in removed {
        var j :| j in ids && key(log[j].fact.value) == x;
        assert j in before[x] && (x == k ==> before[k] - {id} != {});
        var i :| i in before[x] && i != id;
      }
      if x in after {
        var i :| i in ids - {id} && key(log[i].fact.value) == x;
        assert i in before[x] && i in before[x] - {id};
      }
    }
    forall x | x in after ensures removed[x] == after[x] {
      assert after[x] == WithKey(log, ids - {id}, key, x);
    }
  }

  /** Swapping a record for another with the same key is removing the one and inserting the other. */
  lemma ReplaceIsRemoveInsert<K>(log: seq<Record>, ids: set<nat>, key: Fact -> K, old_id: nat, new_id: nat)
    requires AllFacts(log, ids + {new_id}) && old_id in ids
    requires key(log[old_id].fact.value) == key(log[new_id].fact.value)
    ensures var k := key(log[old_id].fact.value);
      var index := IndexOf(log, ids, key);
      ReplaceIndex(index, k, old_id, new_id) == InsertIndex(RemoveIndex(index, k, old_id), k, new_id)
  {
    var k := key(log[old_id].fact.value);
    var index := IndexOf(log, ids, key);
    assert old_id in index[k];
    assert ReplaceIndex(index, k, old_id, new_id).Keys == InsertIndex(RemoveIndex(index, k, old_id), k, new_id).Keys;
  }

  /** Appending to the log leaves an index as it is. */
  lemma IndexStable<K>(log: seq<Record>, r: Record, ids: set<nat>, key: Fact -> K)
    requires AllFacts(log, ids)
    ensures IndexOf(log + [r], ids, key) == IndexOf(log, ids, key)
  {
    forall id | id in ids ensures (log + [r])[id] == log[id] {
    }
    assert IndexOf(log + [r], ids, key).Keys == IndexOf(log, ids, key).Keys;
    forall k | k in IndexOf(log, ids, key) ensures IndexOf(log + [r], ids, key)[k] == IndexOf(log, ids, key)[k] {
    }
  }

  /** Every record some bucket holds. */
  function AllIds<K(==)>(index: Index<K>): set<nat> {
    set k, id | k in index && id in index[k] :: id
  }

  lemma AllIdsByValue<K>(index: Index<K>, buckets: set<set<nat>>)
    requires buckets == set k | k in index :: index[k]
    ensures (set bucket, id | bucket in buckets && id in bucket :: id) == AllIds(index)
  {
  }

  /** The buckets of an exact index hold exactly the indexed records. */
  lemma BucketsCover<K>(log: seq<Record>, ids: set<nat>, key: Fact -> K)
    requires AllFacts(log, ids)
    ensures AllIds(IndexOf(log, ids, key)) == ids
  {
    var index := IndexOf(log, ids, key);
    forall id | id in ids ensures exists k :: k in index && id in index[k] {
      assert id in index[key(log[id].fact.value)];
    }
  }

  // ---- Candidates ----

  /** The seven indexes. */
  datatype View = View(bySubject: Index<Atom>, byRelation: Index<Name>, byTarget: Index<Atom>,
                       bySubjectRelation: Index<(Atom, Name)>, bySubjectTarget: Index<(Atom, Atom)>,
                       byRelationTarget: Index<(Name, Atom)>, byExact: Index<Fact>)

  function ViewOf(log: seq<Record>, ids: set<nat>): View
    requires AllFacts(log, ids)
  {
    View(IndexOf(log, ids, SubjectOf), IndexOf(log, ids, RelationOf), IndexOf(log, ids, TargetOf),
         IndexOf(log, ids, SubjectRelationOf), IndexOf(log, ids, SubjectTargetOf),
         IndexOf(log, ids, RelationTargetOf), IndexOf(log, ids, ExactOf))
  }

  /** Enter a record under all seven keys of its fact. */
  function Added(v: View, f: Fact, id: nat): View {
    View(InsertIndex(v.bySubject, SubjectOf(f), id), InsertIndex(v.byRelation, RelationOf(f), id),
         InsertIndex(v.byTarget, TargetOf(f), id), InsertIndex(v.bySubjectRelation, SubjectRelationOf(f), id),
         InsertIndex(v.bySubjectTarget, SubjectTargetOf(f), id), InsertIndex(v.byRelationTarget, RelationTargetOf(f), id),
         InsertIndex(v.byExact, ExactOf(f), id))
  }

  function Removed(v: View, f: Fact, id: nat): View {
    View(RemoveIndex(v.bySubject, SubjectOf(f), id), RemoveIndex(v.byRelation, RelationOf(f), id),
         RemoveIndex(v.byTarget, TargetOf(f), id), RemoveIndex(v.bySubjectRelation, SubjectRelationOf(f), id),
         RemoveIndex(v.bySubjectTarget, SubjectTargetOf(f), id), RemoveIndex(v.byRelationTarget, RelationTargetOf(f), id),
         RemoveIndex(v.byExact, ExactOf(f), id))
  }

  lemma AddedIsExact(log: seq<Record>, ids: set<nat>, id: nat)
    requires AllFacts(log, ids + {id})
    ensures Added(ViewOf(log, ids), log[id].fact.value, id) == ViewOf(log, ids + {id})
  {
    InsertKeepsExact(log, ids, SubjectOf, id);
    InsertKeepsExact(log, ids, RelationOf, id);
    InsertKeepsExact(log, ids, TargetOf, id);
    InsertKeepsExact(log, ids, SubjectRelationOf, id);
    InsertKeepsExact(log, ids, SubjectTargetOf, id);
    InsertKeepsExact(log, ids, RelationTargetOf, id);
    InsertKeepsExact(log, ids, ExactOf, id);
  }

  lemma RemovedIsExact(log: seq<Record>, ids: set<nat>, id: nat)
    requires AllFacts(log, ids) && id in ids
    ensures Removed(ViewOf(log, ids), log[id].fact.value, id) == ViewOf(log, ids - {id})
  {
    RemoveKeepsExact(log, ids, SubjectOf, id);
    RemoveKeepsExact(log, ids, RelationOf, id);
    RemoveKeepsExact(log, ids, TargetOf, id);
    RemoveKeepsExact(log, ids, SubjectRelationOf, id);
    RemoveKeepsExact(log, ids, SubjectTargetOf, id);
    RemoveKeepsExact(log, ids, RelationTargetOf, id);
    RemoveKeepsExact(log, ids, ExactOf, id);
  }

  /** Swap one record for another: in place under every key the two facts share, by removal and insertion
      under every other. */
  function Replaced(v: View, f: Fact, old_id: nat, g: Fact, new_id: nat): View {
    View(Swapped(v.bySubject, SubjectOf(f), old_id, SubjectOf(g), new_id),
         Swapped(v.byRelation, RelationOf(f), old_id, RelationOf(g), new_id),
         Swapped(v.byTarget, TargetOf(f), old_id, TargetOf(g), new_id),
         Swapped(v.bySubjectRelation, SubjectRelationOf(f), old_id, SubjectRelationOf(g), new_id),
         Swapped(v.bySubjectTarget, SubjectTargetOf(f), old_id, SubjectTargetOf(g), new_id),
         Swapped(v.byRelationTarget, RelationTargetOf(f), old_id, RelationTargetOf(g), new_id),
         Swapped(v.byExact, ExactOf(f), old_id, ExactOf(g), new_id))
  }

  function Swapped<K(==)>(index: Index<K>, old_key: K, old_id: nat, new_key: K, new_id: nat): Index<K> {
    if old_key == new_key then ReplaceIndex(index, old_key, old_id, new_id)
    else InsertIndex(RemoveIndex(index, old_key, old_id), new_key, new_id)
  }

  lemma SwappedIsRemoveInsert<K>(log: seq<Record>, ids: set<nat>, key: Fact -> K, old_id: nat, new_id: nat)
    requires AllFacts(log, ids + {new_id}) && old_id in ids
    ensures var (k, l) := (key(log[old_id].fact.value), key(log[new_id].fact.value));
      Swapped(IndexOf(log, ids, key), k, old_id, l, new_id)
      == InsertIndex(RemoveIndex(IndexOf(log, ids, key), k, old_id), l, new_id)
  {
    if key(log[old_id].fact.value) == key(log[new_id].fact.value) {
      ReplaceIsRemoveInsert(log, ids, key, old_id, new_id);
    }
  }

  /** The in-place replace of all seven indexes is a remove followed by an add. */
  lemma ReplacedIsRemoveAdd(log: seq<Record>, ids: set<nat>, old_id: nat, new_id: nat)
    requires AllFacts(log, ids + {new_id}) && old_id in ids
    ensures var (f, g) := (log[old_id].fact.value, log[new_id].fact.value);
      Replaced(ViewOf(log, ids), f, old_id, g, new_id) == Added(Removed(ViewOf(log, ids), f, old_id), g, new_id)
  {
    hide IndexOf, Swapped, InsertIndex, RemoveIndex;
    SwappedIsRemoveInsert(log, ids, SubjectOf, old_id, new_id);
    SwappedIsRemoveInsert(log, ids, RelationOf, old_id, new_id);
    SwappedIsRemoveInsert(log, ids, TargetOf, old_id, new_id);
    SwappedIsRemoveInsert(log, ids, SubjectRelationOf, old_id, new_id);
    SwappedIsRemoveInsert(log, ids, SubjectTargetOf, old_id, new_id);
    SwappedIsRemoveInsert(log, ids, RelationTargetOf, old_id, new_id);
    SwappedIsRemoveInsert(log, ids, ExactOf, old_id, new_id);
  }

  lemma ViewStable(log: seq<Record>, r: Record, ids: set<nat>)
    requires AllFacts(log, ids)
    ensures AllFacts(log + [r], ids) && ViewOf(log + [r], ids) == ViewOf(log, ids)
  {
    IndexStable(log, r, ids, SubjectOf);
    IndexStable(log, r, ids, RelationOf);
    IndexStable(log, r, ids, TargetOf);
    IndexStable(log, r, ids, SubjectRelationOf);
    IndexStable(log, r, ids, SubjectTargetOf);
    IndexStable(log, r, ids, RelationTargetOf);
    IndexStable(log, r, ids, ExactOf);
  }

  /** The record ids a pattern is looked up to: one bucket of one index, or all heads. */
  function LookUp(v: View, heads: set<nat>, p: Pattern, b: Binding): set<nat> {
    match (ResolvedAtom(p.subject, b), ResolvedPredicate(p.relation, b), ResolvedAtom(p.target, b))
    case (Some(s), Some(r), Some(t)) => Bucket(v.byExact, Fact(s, r, t))
    case (Some(s), Some(r), None) => Bucket(v.bySubjectRelation, (s, r))
    case (Some(s), None, Some(t)) => Bucket(v.bySubjectTarget, (s, t))
    case (None, Some(r), Some(t)) => Bucket(v.byRelationTarget, (r, t))
    case (Some(s), None, None) => Bucket(v.bySubject, s)
    case (None, Some(r), None) => Bucket(v.byRelation, r)
    case (None, None, Some(t)) => Bucket(v.byTarget, t)
    case (None, None, None) => heads
  }

  lemma BucketIsWithKey<K>(log: seq<Record>, ids: set<nat>, key: Fact -> K, k: K)
    requires AllFacts(log, ids)
    ensures Bucket(IndexOf(log, ids, key), k) == WithKey(log, ids, key, k)
  {
  }

  /** Whichever index is used, it returns exactly the active records that agree with the known parts. */
  lemma LookUpIsExact(log: seq<Record>, heads: set<nat>, p: Pattern, b: Binding)
    requires AllFacts(log, heads)
    ensures LookUp(ViewOf(log, heads), heads, p, b) == set id | id in heads && Agrees(p, b, log[id].fact.value)
  {
    match (ResolvedAtom(p.subject, b), ResolvedPredicate(p.relation, b), ResolvedAtom(p.target, b))
    case (Some(s), Some(r), Some(t)) => BucketIsWithKey(log, heads, ExactOf, Fact(s, r, t));
    case (Some(s), Some(r), None) => BucketIsWithKey(log, heads, SubjectRelationOf, (s, r));
    case (Some(s), None, Some(t)) => BucketIsWithKey(log, heads, SubjectTargetOf, (s, t));
    case (None, Some(r), Some(t)) => BucketIsWithKey(log, heads, RelationTargetOf, (r, t));
    case (Some(s), None, None) => BucketIsWithKey(log, heads, SubjectOf, s);
    case (None, Some(r), None) => BucketIsWithKey(log, heads, RelationOf, r);
    case (None, None, Some(t)) => BucketIsWithKey(log, heads, TargetOf, t);
    case (None, None, None) =>
  }

  function KeepAgreeing(log: seq<Record>, ids: seq<nat>, p: Pattern, b: Binding): (r: seq<nat>)
    requires AllDefinitions(log, ids)
    ensures forall id :: id in r <==> id in ids && Agrees(p, b, log[id].fact.value)
    ensures Ascending(ids) ==> Ascending(r)
  {
    if ids == [] then []
    else
      var rest := KeepAgreeing(log, ids[1..], p, b);
      assert ids == [ids[0]] + ids[1..];
      assert forall i :: 0 <= i < |rest| ==> rest[i] in ids[1..];
      if Agrees(p, b, log[ids[0]].fact.value) then [ids[0]] + rest else rest
  }

  lemma EntriesCons(log: seq<Record>, id: nat, rest: seq<nat>)
    requires id < |log| && log[id].fact.Some? && AllDefinitions(log, rest)
    ensures AllDefinitions(log, [id] + rest)
    ensures EntriesAt(log, [id] + rest) == [EntryAt(log, id)] + EntriesAt(log, rest)
  {
  }

  lemma {:induction false} KeepAgreeingSelects(log: seq<Record>, ids: seq<nat>, p: Pattern, b: Binding)
    requires AllDefinitions(log, ids)
    ensures AllDefinitions(log, KeepAgreeing(log, ids, p, b))
    ensures EntriesAt(log, KeepAgreeing(log, ids, p, b)) == Select(EntriesAt(log, ids), p, b)
    decreases |ids|
  {
    if ids != [] {
      var id, tail := ids[0], ids[1..];
      var rest := KeepAgreeing(log, tail, p, b);
      KeepAgreeingSelects(log, tail, p, b);
      assert [id] + tail == ids;
      EntriesCons(log, id, tail);
      SelectFirst(EntryAt(log, id), EntriesAt(log, tail), p, b);
      if Agrees(p, b, log[id].fact.value) {
        EntriesCons(log, id, rest);
      }
    }
  }

  /** Sorted candidate ids, read back as entries, are the selection from the active entries. */
  lemma CandidatesAreSelection(s: State, p: Pattern, b: Binding)
    requires Inv(s)
    ensures AllFacts(s.log, HeadIds(s))
    ensures var ids := SortedIds(LookUp(ViewOf(s.log, HeadIds(s)), HeadIds(s), p, b));
      AllDefinitions(s.log, ids) && EntriesAt(s.log, ids) == Select(ActiveEntries(s), p, b)
  {
    HeadsAreFacts(s);
    HeadsAreDefinitions(s);
    LookUpIsExact(s.log, HeadIds(s), p, b);
    var all, ids := SortedIds(HeadIds(s)), SortedIds(LookUp(ViewOf(s.log, HeadIds(s)), HeadIds(s), p, b));
    AscendingUnique(ids, KeepAgreeing(s.log, all, p, b));
    KeepAgreeingSelects(s.log, all, p, b);
  }

  lemma HeadsAreFacts(s: State)
    requires Inv(s)
    ensures AllFacts(s.log, HeadIds(s))
  {
    forall id | id in HeadIds(s) ensures id < |s.log| && s.log[id].fact.Some? {
      var slot :| slot in s.head && s.head[slot] == id;
      assert IsDefinition(s.log, s.head[slot], slot);
    }
  }
}
