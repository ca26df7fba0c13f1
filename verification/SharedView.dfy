/** The shared kernel's view: seven sharded indexes changed in place, with a signature of the records in them. */
module SharedView {
  import opened Facts
  import opened Indexes
  import opened Containers
  import opened Signature


  function BucketOf<K(!new)>(index: ShardedMap<K, set<nat>>, key: K): (ids: set<nat>)
    requires index.Valid()
    reads index
    ensures ids == Bucket(index.contents, key)
  {
    match index.Get(key) case Some(ids) => ids case None => {}
  }

  method InsertInto<K(!new)>(index: ShardedMap<K, set<nat>>, key: K, id: nat)
    requires index.Valid()
    modifies index
    ensures index.Valid() && index.contents == InsertIndex(old(index.contents), key, id)
  {
    hide ShardedMap.Valid;
    var bucket := index.Get(key);
    if bucket.Some? {
      index.Update(key, bucket.value + {id});
    } else {
      var _ := index.Insert(key, {id});
    }
  }

  method RemoveFrom<K(!new)>(index: ShardedMap<K, set<nat>>, key: K, id: nat)
    requires index.Valid()
    modifies index
    ensures index.Valid() && index.contents == RemoveIndex(old(index.contents), key, id)
  {
    var bucket := index.Get(key);
    if bucket.Some? {
      index.Update(key, bucket.value - {id});
      if bucket.value - {id} == {} {
        var _ := index.Remove(key);
        assert index.contents == old(index.contents) - {key};
      }
    }
  }

  method ReplaceIn<K(!new)>(index: ShardedMap<K, set<nat>>, key: K, old_id: nat, new_id: nat)
    requires index.Valid()
    modifies index
    ensures index.Valid() && index.contents == ReplaceIndex(old(index.contents), key, old_id, new_id)
  {
    var bucket := index.Get(key);
    if bucket.Some? {
      index.Update(key, bucket.value - {old_id} + {new_id});
    }
  }

  method SwapIn<K(!new)>(index: ShardedMap<K, set<nat>>, old_key: K, old_id: nat, new_key: K, new_id: nat)
    requires index.Valid()
    modifies index
    ensures index.Valid() && index.contents == Swapped(old(index.contents), old_key, old_id, new_key, new_id)
  {
    if old_key == new_key {
      ReplaceIn(index, old_key, old_id, new_id);
    } else {
      RemoveFrom(index, old_key, old_id);
      InsertInto(index, new_key, new_id);
    }
  }

  const INDEX_SHARDS: nat := 4096

  method NewIndex<K(!new)>(hash: K -> nat) returns (index: ShardedMap<K, set<nat>>)
    ensures fresh(index) && index.Valid() && index.contents == map[]
  {
    hide ShardedMap.Valid;
    index := new ShardedMap(INDEX_SHARDS, hash);
  }

  class CurrentView {
    const bySubject: ShardedMap<Atom, set<nat>>
    const byRelation: ShardedMap<Name, set<nat>>
    const byTarget: ShardedMap<Atom, set<nat>>
    const bySubjectRelation: ShardedMap<(Atom, Name), set<nat>>
    const bySubjectTarget: ShardedMap<(Atom, Atom), set<nat>>
    const byRelationTarget: ShardedMap<(Name, Atom), set<nat>>
    const byExact: ShardedMap<Fact, set<nat>>
    var signature: ActiveSignature

    ghost function Repr(): set<object> {
      {this, bySubject, byRelation, byTarget, bySubjectRelation, bySubjectTarget, byRelationTarget, byExact}
    }

    /** The eight objects are distinct. */
    ghost predicate Apart() {
      && (bySubject as object) != byRelation && (bySubject as object) != byTarget
      && (bySubject as object) != bySubjectRelation && (bySubject as object) != bySubjectTarget
      && (bySubject as object) != byRelationTarget && (bySubject as object) != byExact
      && (bySubject as object) != this
      && (byRelation as object) != byTarget && (byRelation as object) != bySubjectRelation
      && (byRelation as object) != bySubjectTarget && (byRelation as object) != byRelationTarget
      && (byRelation as object) != byExact && (byRelation as object) != this
      && (byTarget as object) != bySubjectRelation && (byTarget as object) != bySubjectTarget
      && (byTarget as object) != byRelationTarget && (byTarget as object) != byExact && (byTarget as object) != this
      && (bySubjectRelation as object) != bySubjectTarget && (bySubjectRelation as object) != byRelationTarget
      && (bySubjectRelation as object) != byExact && (bySubjectRelation as object) != this
      && (bySubjectTarget as object) != byRelationTarget && (bySubjectTarget as object) != byExact
      && (bySubjectTarget as object) != this
      && (byRelationTarget as object) != byExact && (byRelationTarget as object) != this
      && (byExact as object) != this
    }

    ghost predicate Valid()
      reads Repr()
    {
      && Apart()
      && bySubject.Valid() && byRelation.Valid() && byTarget.Valid() && bySubjectRelation.Valid()
      && bySubjectTarget.Valid() && byRelationTarget.Valid() && byExact.Valid()
    }

    ghost function Contents(): View
      reads Repr()
    {
      View(bySubject.contents, byRelation.contents, byTarget.contents, bySubjectRelation.contents,
           bySubjectTarget.contents, byRelationTarget.contents, byExact.contents)
    }

    constructor (atomHash: Atom -> nat, nameHash: Name -> nat, atomNameHash: ((Atom, Name)) -> nat,
                 atomAtomHash: ((Atom, Atom)) -> nat, nameAtomHash: ((Name, Atom)) -> nat, factHash: Fact -> nat)
      ensures Valid() && fresh(Repr())
      ensures Contents() == View(map[], map[], map[], map[], map[], map[], map[]) && signature == NO_RECORDS
    {
      hide ShardedMap.Valid;
      var subjects := NewIndex(atomHash);
      var relations := NewIndex(nameHash);
      var targets := NewIndex(atomHash);
      var subjectRelations := NewIndex(atomNameHash);
      var subjectTargets := NewIndex(atomAtomHash);
      var relationTargets := NewIndex(nameAtomHash);
      var facts := NewIndex(factHash);
      bySubject, byRelation, byTarget := subjects, relations, targets;
      bySubjectRelation, bySubjectTarget, byRelationTarget := subjectRelations, subjectTargets, relationTargets;
      byExact := facts;
      signature := NO_RECORDS;
    }

    method Add(fact: Fact, id: nat)
      requires Valid()
      modifies Repr()
      ensures Valid() && Contents() == Added(old(Contents()), fact, id)
      ensures signature == AddRecord(old(signature), id)
    {
      hide ShardedMap.Valid, InsertIndex, AddRecord;
      InsertInto(bySubject, fact.subject, id);
      InsertInto(byRelation, fact.relation, id);
      InsertInto(byTarget, fact.target, id);
      InsertInto(bySubjectRelation, (fact.subject, fact.relation), id);
      InsertInto(bySubjectTarget, (fact.subject, fact.target), id);
      InsertInto(byRelationTarget, (fact.relation, fact.target), id);
      InsertInto(byExact, fact, id);
      signature := AddRecord(signature, id);
    }

    method Remove(fact: Fact, id: nat)
      requires Valid() && signature.count > 0
      modifies Repr()
      ensures Valid() && Contents() == Removed(old(Contents()), fact, id)
      ensures signature == RemoveRecord(old(signature), id)
    {
      hide ShardedMap.Valid, RemoveIndex, RemoveRecord;
      RemoveFrom(bySubject, fact.subject, id);
      RemoveFrom(byRelation, fact.relation, id);
      RemoveFrom(byTarget, fact.target, id);
      RemoveFrom(bySubjectRelation, (fact.subject, fact.relation), id);
      RemoveFrom(bySubjectTarget, (fact.subject, fact.target), id);
      RemoveFrom(byRelationTarget, (fact.relation, fact.target), id);
      RemoveFrom(byExact, fact, id);
      signature := RemoveRecord(signature, id);
    }

    method Replace(f: Fact, old_id: nat, g: Fact, new_id: nat)
      requires Valid() && signature.count > 0
      modifies Repr()
      ensures Valid() && Contents() == Replaced(old(Contents()), f, old_id, g, new_id)
      ensures signature == AddRecord(RemoveRecord(old(signature), old_id), new_id)
    {
      hide ShardedMap.Valid, Swapped, RemoveRecord, AddRecord;
      SwapIn(bySubject, f.subject, old_id, g.subject, new_id);
      SwapIn(byRelation, f.relation, old_id, g.relation, new_id);
      SwapIn(byTarget, f.target, old_id, g.target, new_id);
      SwapIn(bySubjectRelation, (f.subject, f.relation), old_id, (g.subject, g.relation), new_id);
      SwapIn(bySubjectTarget, (f.subject, f.target), old_id, (g.subject, g.target), new_id);
      SwapIn(byRelationTarget, (f.relation, f.target), old_id, (g.relation, g.target), new_id);
      SwapIn(byExact, f, old_id, g, new_id);
      signature := AddRecord(RemoveRecord(signature, old_id), new_id);
    }

    function LookUpIn(heads: set<nat>, p: Pattern, b: Binding): (ids: set<nat>)
      requires Valid()
      reads Repr()
      ensures ids == LookUp(Contents(), heads, p, b)
    {
      match (ResolvedAtom(p.subject, b), ResolvedPredicate(p.relation, b), ResolvedAtom(p.target, b))
      case (Some(s), Some(r), Some(t)) => BucketOf(byExact, Fact(s, r, t))
      case (Some(s), Some(r), None) => BucketOf(bySubjectRelation, (s, r))
      case (Some(s), None, Some(t)) => BucketOf(bySubjectTarget, (s, t))
      case (None, Some(r), Some(t)) => BucketOf(byRelationTarget, (r, t))
      case (Some(s), None, None) => BucketOf(bySubject, s)
      case (None, Some(r), None) => BucketOf(byRelation, r)
      case (None, None, Some(t)) => BucketOf(byTarget, t)
      case (None, None, None) => heads
    }
  }
}
