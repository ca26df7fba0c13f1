/** How defines and forgets move the active heads, and what that does to indexes and signature. */
module ViewLaws {
  import opened Facts
  import opened Store
  import opened Indexes
  import opened Signature

  /** A define replaces its slot's head among the active records and nothing else. */
  lemma HeadsAfterDefine(s: State, slot: Name, fact: Fact)
    requires Inv(s)
    ensures HeadIds(AfterDefine(s, slot, fact))
         == (if slot in s.head then HeadIds(s) - {s.head[slot]} else HeadIds(s)) + {|s.log|}
  {
    HeadsDistinct(s, slot);
    var after := AfterDefine(s, slot, fact);
    forall x | x in s.head && x != slot ensures after.head[x] == s.head[x] && after.head[x] in HeadIds(after) {
    }
    assert after.head[slot] == |s.log| && after.head[slot] in HeadIds(after);
  }

  lemma HeadsAfterForget(s: State, slot: Name)
    requires Inv(s)
    ensures HeadIds(AfterForget(s, slot))
         == (if slot in s.head then HeadIds(s) - {s.head[slot]} else HeadIds(s))
            + (match Revealed(s, slot) case Some(id) => {id} case None => {})
  {
    HeadsDistinct(s, slot);
    var after := AfterForget(s, slot);
    forall x | x in s.head && x != slot ensures after.head[x] == s.head[x] && after.head[x] in HeadIds(after) {
    }
    if slot in s.head && Revealed(s, slot).Some? {
      assert after.head[slot] == Revealed(s, slot).value && after.head[slot] in HeadIds(after);
    }
  }

  function WithoutHead(s: State, v: View, slot: Name): View
    requires slot in s.head ==> IsDefinition(s.log, s.head[slot], slot)
  {
    if slot in s.head then Removed(v, s.log[s.head[slot]].fact.value, s.head[slot]) else v
  }

  lemma WithoutHeadIsExact(s: State, slot: Name)
    requires Inv(s)
    ensures AllFacts(s.log, HeadIds(s))
    ensures var ids := if slot in s.head then HeadIds(s) - {s.head[slot]} else HeadIds(s);
      WithoutHead(s, ViewOf(s.log, HeadIds(s)), slot) == ViewOf(s.log, ids)
  {
    HeadsAreFacts(s);
    if slot in s.head {
      assert s.head[slot] in HeadIds(s);
      RemovedIsExact(s.log, HeadIds(s), s.head[slot]);
    }
  }

  /** Removing the old head, appending and adding the new head leaves every index exact. */
  lemma DefinedView(s: State, slot: Name, fact: Fact)
    requires Inv(s)
    ensures Inv(AfterDefine(s, slot, fact))
    ensures AllFacts(s.log, HeadIds(s))
    ensures slot in s.head ==> IsDefinition(s.log, s.head[slot], slot)
    ensures var after := AfterDefine(s, slot, fact);
      && AllFacts(after.log, HeadIds(after))
      && Added(WithoutHead(s, ViewOf(s.log, HeadIds(s)), slot), fact, |s.log|) == ViewOf(after.log, HeadIds(after))
  {
    hide ViewOf, Added, Removed;
    DefineKeepsInv(s, slot, fact);
    WithoutHeadIsExact(s, slot);
    HeadsAfterDefine(s, slot, fact);
    var after := AfterDefine(s, slot, fact);
    HeadsAreFacts(after);
    var ids := if slot in s.head then HeadIds(s) - {s.head[slot]} else HeadIds(s);
    ViewStable(s.log, DefineRecord(s, slot, fact), ids);
    AddedIsExact(after.log, ids, |s.log|);
  }

  lemma ForgottenView(s: State, slot: Name)
    requires Inv(s)
    ensures Inv(AfterForget(s, slot))
    ensures AllFacts(s.log, HeadIds(s))
    ensures slot in s.head ==> IsDefinition(s.log, s.head[slot], slot)
    ensures Revealed(s, slot).Some? ==> Revealed(s, slot).value < |s.log| && s.log[Revealed(s, slot).value].fact.Some?
    ensures var after := AfterForget(s, slot);
      var below := WithoutHead(s, ViewOf(s.log, HeadIds(s)), slot);
      && AllFacts(after.log, HeadIds(after))
      && ViewOf(after.log, HeadIds(after)) == match Revealed(s, slot)
           case None => below
           case Some(id) => Added(below, s.log[id].fact.value, id)
  {
    hide ViewOf, Added, Removed;
    ForgetKeepsInv(s, slot);
    WithoutHeadIsExact(s, slot);
    HeadsAfterForget(s, slot);
    var after := AfterForget(s, slot);
    HeadsAreFacts(after);
    var ids := if slot in s.head then HeadIds(s) - {s.head[slot]} else HeadIds(s);
    ViewStable(s.log, ForgetRecord(s, slot), ids);
    if Revealed(s, slot).Some? {
      RevealedIsFact(s, slot);
      AddedIsExact(after.log, ids, Revealed(s, slot).value);
    } else {
      assert HeadIds(after) == ids;
    }
  }

  lemma RevealedIsFact(s: State, slot: Name)
    requires Inv(s) && Revealed(s, slot).Some?
    ensures var id := Revealed(s, slot).value;
      id < |s.log| && s.log[id].fact.Some?
  {
    assert RecordInv(s.log, s.head[slot]);
  }

  lemma HeadsDistinct(s: State, slot: Name)
    requires Inv(s)
    ensures slot in s.head ==> forall x :: x in s.head && x != slot ==> s.head[x] != s.head[slot]
  {
    assert slot in s.head ==> IsDefinition(s.log, s.head[slot], slot);
    forall x | slot in s.head && x in s.head && x != slot ensures s.head[x] != s.head[slot] {
      assert IsDefinition(s.log, s.head[x], x);
    }
  }

  // ---- A slot's history ----

  /** Every record of a slot, oldest first. */
  function RecordsOf(log: seq<Record>, slot: Name): seq<Record> {
    if log == [] then []
    else RecordsOf(log[..|log| - 1], slot) + if log[|log| - 1].slot == slot then [log[|log| - 1]] else []
  }

  lemma {:induction false} RecordsAreIds(log: seq<Record>, slot: Name)
    ensures var ids := IdsOf(log, slot);
      && |RecordsOf(log, slot)| == |ids|
      && forall i :: 0 <= i < |ids| ==> ids[i] < |log| && RecordsOf(log, slot)[i] == log[ids[i]]
    decreases |log|
  {
    if log != [] {
      RecordsAreIds(log[..|log| - 1], slot);
    }
  }

  /** They are all records of the slot, defines and forgets alike, each once, by rising id. */
  lemma {:induction false} HistoryIsComplete(log: seq<Record>, slot: Name)
    ensures var ids := IdsOf(log, slot);
      && Ascending(ids) && (forall id: nat :: id in ids <==> id < |log| && log[id].slot == slot)
      && |RecordsOf(log, slot)| == |ids|
      && forall i :: 0 <= i < |ids| ==> ids[i] < |log| && RecordsOf(log, slot)[i] == log[ids[i]]
    decreases |log|
  {
    RecordsAreIds(log, slot);
    hide RecordsOf;
    if log != [] {
      var front := log[..|log| - 1];
      HistoryIsComplete(front, slot);
      forall id: nat ensures id in IdsOf(log, slot) <==> id < |log| && log[id].slot == slot {
        assert id < |front| ==> front[id] == log[id];
      }
    }
  }

  // ---- The in-place forms ----

  /** Remove the record that stops being a head, if any, and add the one that becomes it. */
  function Moved(s: ActiveSignature, previous: Option<nat>, next: Option<nat>): ActiveSignature
    requires previous.Some? ==> s.count > 0
  {
    var removed := if previous.Some? then RemoveRecord(s, previous.value) else s;
    if next.Some? then AddRecord(removed, next.value) else removed
  }

  lemma MovedIsExact(ids: set<nat>, previous: Option<nat>, next: Option<nat>)
    requires previous.Some? ==> previous.value in ids
    requires next.Some? ==> next.value !in ids
    ensures previous.Some? ==> SignatureOfSet(ids).count > 0
    ensures Moved(SignatureOfSet(ids), previous, next)
      == SignatureOfSet((if previous.Some? then ids - {previous.value} else ids) + (if next.Some? then {next.value} else {}))
  {
    hide SignatureOfSet, AddRecord, RemoveRecord;
    var left := if previous.Some? then ids - {previous.value} else ids;
    if previous.Some? {
      SignatureAfterRemove(ids, previous.value);
    }
    if next.Some? {
      SignatureAfterAdd(left, next.value);
    } else {
      assert left + {} == left;
    }
  }

  /** The shared kernel's update of its view on a define: replace in place, or add to an empty slot. */
  function DefinedInPlace(s: State, v: View, slot: Name, fact: Fact): View
    requires slot in s.head ==> IsDefinition(s.log, s.head[slot], slot)
  {
    if slot in s.head then Replaced(v, s.log[s.head[slot]].fact.value, s.head[slot], fact, |s.log|)
    else Added(v, fact, |s.log|)
  }

  lemma DefinedInPlaceIsExact(s: State, slot: Name, fact: Fact)
    requires Inv(s)
    ensures Inv(AfterDefine(s, slot, fact))
    ensures AllFacts(s.log, HeadIds(s)) && AllFacts(AfterDefine(s, slot, fact).log, HeadIds(AfterDefine(s, slot, fact)))
    ensures slot in s.head ==> IsDefinition(s.log, s.head[slot], slot)
    ensures var after := AfterDefine(s, slot, fact);
      DefinedInPlace(s, ViewOf(s.log, HeadIds(s)), slot, fact) == ViewOf(after.log, HeadIds(after))
    ensures slot in s.head ==> SignatureOfSet(HeadIds(s)).count > 0
    ensures Moved(SignatureOfSet(HeadIds(s)), HeadOf(s.head, slot), Some(|s.log|))
         == SignatureOfSet(HeadIds(AfterDefine(s, slot, fact)))
  {
    hide ViewOf, Added, Removed, Replaced, SignatureOfSet, Moved;
    DefinedView(s, slot, fact);
    HeadsAfterDefine(s, slot, fact);
    var log', ids := AfterDefine(s, slot, fact).log, HeadIds(s);
    ViewStable(s.log, DefineRecord(s, slot, fact), ids);
    if slot in s.head {
      assert s.head[slot] in ids;
      ReplacedIsRemoveAdd(log', ids, s.head[slot], |s.log|);
    }
    assert |s.log| !in ids;
    MovedIsExact(ids, HeadOf(s.head, slot), Some(|s.log|));
  }

  function ForgottenInPlace(s: State, v: View, slot: Name): View
    requires slot in s.head ==> IsDefinition(s.log, s.head[slot], slot)
    requires Revealed(s, slot).Some? ==> Revealed(s, slot).value < |s.log| && s.log[Revealed(s, slot).value].fact.Some?
  {
    if slot !in s.head then v
    else match Revealed(s, slot)
      case Some(id) => Replaced(v, s.log[s.head[slot]].fact.value, s.head[slot], s.log[id].fact.value, id)
      case None => Removed(v, s.log[s.head[slot]].fact.value, s.head[slot])
  }

  lemma RevealedIsNoHead(s: State, slot: Name)
    requires Inv(s) && Revealed(s, slot).Some?
    ensures Revealed(s, slot).value !in HeadIds(s)
  {
    var id := Revealed(s, slot).value;
    assert RecordInv(s.log, s.head[slot]);
    forall x | x in s.head ensures s.head[x] != id {
      assert IsDefinition(s.log, s.head[x], x);
    }
  }

  lemma ForgottenInPlaceIsExact(s: State, slot: Name)
    requires Inv(s)
    ensures Inv(AfterForget(s, slot))
    ensures AllFacts(s.log, HeadIds(s)) && AllFacts(AfterForget(s, slot).log, HeadIds(AfterForget(s, slot)))
    ensures slot in s.head ==> IsDefinition(s.log, s.head[slot], slot)
    ensures Revealed(s, slot).Some? ==> Revealed(s, slot).value < |s.log| && s.log[Revealed(s, slot).value].fact.Some?
    ensures var after := AfterForget(s, slot);
      ForgottenInPlace(s, ViewOf(s.log, HeadIds(s)), slot) == ViewOf(after.log, HeadIds(after))
    ensures slot in s.head ==> SignatureOfSet(HeadIds(s)).count > 0
    ensures Moved(SignatureOfSet(HeadIds(s)), HeadOf(s.head, slot), Revealed(s, slot))
         == SignatureOfSet(HeadIds(AfterForget(s, slot)))
  {
    hide ViewOf, Added, Removed, Replaced, SignatureOfSet, Moved;
    ForgottenView(s, slot);
    HeadsAfterForget(s, slot);
    var ids := HeadIds(s);
    if slot in s.head {
      assert s.head[slot] in ids;
      if Revealed(s, slot).Some? {
        ReplacedIsRemoveAdd(s.log, ids, s.head[slot], Revealed(s, slot).value);
      }
    }
    if Revealed(s, slot).Some? {
      RevealedIsNoHead(s, slot);
    }
    MovedIsExact(ids, HeadOf(s.head, slot), Revealed(s, slot));
  }
}
