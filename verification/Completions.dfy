/** Checking the completions of one submitted epoch: they may arrive in any order, but there must be exactly one
    full-length completion for every write and one clean completion for the sync. */
module Completions {
  import opened Words
  import opened Facts

  // The upper half of a write's identifier; the lower half is its index.
  const WRITE_TAG: nat := 0x5752_4954
  const FSYNC_USER_DATA: nat := 0x4653_594e_435f_4d36

  datatype Completion = Completion(userData: nat, result: int)

  datatype ExpectedWrite = ExpectedWrite(userData: nat, length: nat)

  datatype Failure =
    | WrongCount | DuplicateSync | UnknownCompletion | OutOfRange(index: nat) | DuplicateWrite(index: nat)
    | Noncanonical(index: nat) | MissingWrite(index: nat) | WriteError(code: nat) | ShortWrite(index: nat)
    | MissingSync | SyncError(code: nat) | StrangeSync

  /** The tag with the index below it. Indices stay below 2^32, so joining them is addition. */
  function WriteUserData(index: nat): nat {
    WRITE_TAG * U32 + index
  }

  lemma IdentifierParts(index: nat)
    requires index < U32
    ensures WriteUserData(index) / U32 == WRITE_TAG && WriteUserData(index) % U32 == index
    ensures WriteUserData(index) != FSYNC_USER_DATA
  {
  }

  // ---- What a complete batch is ----

  function WriteCompletions(expected: seq<ExpectedWrite>): (r: seq<Completion>)
    ensures |r| == |expected| && forall i :: 0 <= i < |r| ==> r[i] == Completion(WriteUserData(i), expected[i].length)
  {
    seq(|expected|, i requires 0 <= i < |expected| => Completion(WriteUserData(i), expected[i].length))
  }

  const SYNCED: Completion := Completion(FSYNC_USER_DATA, 0)

  predicate Canonical(expected: seq<ExpectedWrite>) {
    forall i :: 0 <= i < |expected| ==> expected[i].userData == WriteUserData(i)
  }

  /** Some order of: one full-length completion for each write, and one clean completion for the sync. */
  ghost predicate IsComplete(expected: seq<ExpectedWrite>, completions: seq<Completion>) {
    multiset(completions) == multiset(WriteCompletions(expected) + [SYNCED])
  }

  lemma ExpectedOnes(expected: seq<ExpectedWrite>, completions: seq<Completion>, c: Completion)
    requires |expected| <= U32 && IsComplete(expected, completions) && c in completions
    ensures c == SYNCED || (c.userData / U32 == WRITE_TAG && c.userData != FSYNC_USER_DATA
                            && c.userData % U32 < |expected| && c.result == expected[c.userData % U32].length)
  {
    var all := WriteCompletions(expected) + [SYNCED];
    assert c in multiset(completions) && c in multiset(all);
    assert c in all;
    var i :| 0 <= i < |all| && all[i] == c;
    if i < |expected| {
      IdentifierParts(i);
    }
  }

  lemma EachArrives(expected: seq<ExpectedWrite>, completions: seq<Completion>, i: nat)
    requires IsComplete(expected, completions) && i < |expected|
    ensures Completion(WriteUserData(i), expected[i].length) in completions && SYNCED in completions
  {
    var all := WriteCompletions(expected) + [SYNCED];
    assert all[i] in multiset(all) && all[|expected|] in multiset(all);
    assert all[i] in multiset(completions) && SYNCED in multiset(completions);
  }

  lemma SyncArrives(expected: seq<ExpectedWrite>, completions: seq<Completion>)
    requires IsComplete(expected, completions)
    ensures SYNCED in completions && |completions| == |expected| + 1
  {
    var all := WriteCompletions(expected) + [SYNCED];
    assert all[|expected|] in multiset(all);
    assert SYNCED in multiset(completions);
    assert |multiset(completions)| == |multiset(all)|;
  }

  /** No identifier completes twice in a complete batch. */
  lemma OncePerIdentifier(expected: seq<ExpectedWrite>, completions: seq<Completion>, i: nat, j: nat)
    requires |expected| <= U32 && IsComplete(expected, completions)
    requires i < j < |completions|
    ensures completions[i].userData != completions[j].userData
  {
    var c, d := completions[i], completions[j];
    ExpectedOnes(expected, completions, c);
    ExpectedOnes(expected, completions, d);
    OnceExpected(expected, c);
    TwiceCounts(completions, i, j);
  }

  lemma TwiceCounts(s: seq<Completion>, i: nat, j: nat)
    requires i < j < |s|
    ensures s[i] == s[j] ==> multiset(s)[s[i]] >= 2
  {
    assert s == s[..i] + [s[i]] + s[i + 1..j] + [s[j]] + s[j + 1..];
  }

  lemma OnceExpected(expected: seq<ExpectedWrite>, c: Completion)
    requires |expected| <= U32
    ensures multiset(WriteCompletions(expected) + [SYNCED])[c] <= 1
  {
    var all := WriteCompletions(expected) + [SYNCED];
    forall i, j | 0 <= i < j < |all| ensures all[i] != all[j] {
      IdentifierParts(i);
    }
    DistinctOnce(all, c);
  }

  lemma {:induction false} DistinctOnce(s: seq<Completion>, c: Completion)
    requires forall i, j :: 0 <= i < j < |s| ==> s[i] != s[j]
    ensures multiset(s)[c] <= 1
    decreases |s|
  {
    if s != [] {
      var front, last := s[..|s| - 1], s[|s| - 1];
      assert s == front + [last];
      DistinctOnce(front, c);
      if c == last {
        assert c !in front;
        assert c !in multiset(front);
      }
    }
  }

  // ---- The table of results seen so far ----

  /** After some of the completions: a slot holds a write's result exactly when that write has completed, and no
      write or sync has completed twice. */
  ghost predicate Tabled(seen: seq<Completion>, slots: seq<Option<int>>, sync: Option<int>) {
    && (forall k :: 0 <= k < |seen| ==>
          if seen[k].userData == FSYNC_USER_DATA then sync == Some(seen[k].result)
          else seen[k].userData / U32 == WRITE_TAG && seen[k].userData % U32 < |slots|
               && slots[seen[k].userData % U32] == Some(seen[k].result))
    && (forall i :: 0 <= i < |slots| && slots[i].Some? ==> Completion(WriteUserData(i), slots[i].value) in seen)
    && (sync.Some? ==> Completion(FSYNC_USER_DATA, sync.value) in seen)
    && (forall j, k :: 0 <= j < k < |seen| ==> seen[j].userData != seen[k].userData)
  }

  lemma IsIdentifier(data: nat)
    requires data / U32 == WRITE_TAG
    ensures data == WriteUserData(data % U32)
  {
  }

  lemma TabledMore(seen: seq<Completion>, slots: seq<Option<int>>, sync: Option<int>, c: Completion)
    requires Tabled(seen, slots, sync)
    ensures c.userData == FSYNC_USER_DATA && sync.None? ==> Tabled(seen + [c], slots, Some(c.result))
    ensures c.userData != FSYNC_USER_DATA && c.userData / U32 == WRITE_TAG && c.userData % U32 < |slots| && slots[c.userData % U32].None? ==>
      Tabled(seen + [c], slots[c.userData % U32 := Some(c.result)], sync)
  {
    var all := seen + [c];
    assert all[|seen|] == c;
    if c.userData != FSYNC_USER_DATA && c.userData / U32 == WRITE_TAG && c.userData % U32 < |slots| && slots[c.userData % U32].None? {
      IsIdentifier(c.userData);
      var slots' := slots[c.userData % U32 := Some(c.result)];
      forall i | 0 <= i < |slots'| && slots'[i].Some? ensures Completion(WriteUserData(i), slots'[i].value) in all {
        if i == c.userData % U32 {
          assert all[|seen|] == Completion(WriteUserData(i), slots'[i].value);
        }
      }
    }
  }

  /** A second completion under an identifier that is already in the table. */
  lemma TabledTwice(expected: seq<ExpectedWrite>, completions: seq<Completion>, k: nat, slots: seq<Option<int>>,
                    sync: Option<int>)
    requires |expected| <= U32 && |slots| == |expected| && k < |completions| && Tabled(completions[..k], slots, sync)
    requires var c := completions[k];
      if c.userData == FSYNC_USER_DATA then sync.Some?
      else c.userData / U32 == WRITE_TAG && c.userData % U32 < |slots| && slots[c.userData % U32].Some?
    ensures !IsComplete(expected, completions)
  {
    var c := completions[k];
    var earlier := if c.userData == FSYNC_USER_DATA then Completion(FSYNC_USER_DATA, sync.value)
                   else Completion(WriteUserData(c.userData % U32), slots[c.userData % U32].value);
    assert earlier in completions[..k];
    var j :| 0 <= j < k && completions[..k][j] == earlier;
    if IsComplete(expected, completions) {
      OncePerIdentifier(expected, completions, j, k);
      assert false;
    }
  }

  lemma CompleteTable(expected: seq<ExpectedWrite>, completions: seq<Completion>, slots: seq<Option<int>>,
                      sync: Option<int>)
    requires |expected| <= U32 && |slots| == |expected| && Tabled(completions, slots, sync)
    ensures IsComplete(expected, completions)
       <==> sync == Some(0) && forall i :: 0 <= i < |expected| ==> slots[i] == Some(expected[i].length)
  {
    if IsComplete(expected, completions) {
      SyncArrives(expected, completions);
      forall i | 0 <= i < |expected| ensures slots[i] == Some(expected[i].length) {
        EachArrives(expected, completions, i);
        IdentifierParts(i);
      }
    }
    if sync == Some(0) && forall i :: 0 <= i < |expected| ==> slots[i] == Some(expected[i].length) {
      var all := WriteCompletions(expected) + [SYNCED];
      forall c ensures c in completions <==> c in all {
        if c in completions {
          var k :| 0 <= k < |completions| && completions[k] == c;
          if c.userData != FSYNC_USER_DATA {
            IsIdentifier(c.userData);
            assert all[c.userData % U32] == c;
          } else {
            assert all[|expected|] == c;
          }
        }
        if c in all {
          var k :| 0 <= k < |all| && all[k] == c;
          assert k < |expected| ==> slots[k].Some?;
        }
      }
      forall c ensures multiset(completions)[c] == multiset(all)[c] {
        OnceExpected(expected, c);
        DistinctOnce(completions, c);
        assert c in multiset(completions) <==> c in completions;
        assert c in multiset(all) <==> c in all;
      }
    }
  }

  // ---- The check itself ----

  method FillTable(expected: seq<ExpectedWrite>, completions: seq<Completion>, slots: array<Option<int>>)
    returns (failure: Option<Failure>, sync: Option<int>)
    requires |expected| <= U32 && slots.Length == |expected| && forall i :: 0 <= i < slots.Length ==> slots[i] == None
    modifies slots
    ensures failure.None? ==> Tabled(completions, slots[..], sync)
    ensures failure.Some? ==> !IsComplete(expected, completions)
  {
    hide IsComplete;
    sync := None;
    for k := 0 to |completions|
      invariant Tabled(completions[..k], slots[..], sync)
    {
      hide Tabled;
      var c := completions[k];
      ghost var table := slots[..];
      TabledMore(completions[..k], table, sync, c);
      assert completions[..k + 1] == completions[..k] + [c];
      if c.userData == FSYNC_USER_DATA {
        if sync.Some? {
          TabledTwice(expected, completions, k, table, sync);
          return Some(DuplicateSync), sync;
        }
        sync := Some(c.result);
        continue;
      }
      if c.userData / U32 != WRITE_TAG {
        NotExpected(expected, completions, c);
        return Some(UnknownCompletion), sync;
      }
      var index := c.userData % U32;
      if index >= slots.Length {
        NotExpected(expected, completions, c);
        return Some(OutOfRange(index)), sync;
      }
      if slots[index].Some? {
        TabledTwice(expected, completions, k, table, sync);
        return Some(DuplicateWrite(index)), sync;
      }
      slots[index] := Some(c.result);
      assert slots[..] == table[index := Some(c.result)];
    }
    assert completions[..|completions|] == completions;
    failure := None;
  }

  lemma NotExpected(expected: seq<ExpectedWrite>, completions: seq<Completion>, c: Completion)
    requires |expected| <= U32 && c in completions && c.userData != FSYNC_USER_DATA
    requires c.userData / U32 != WRITE_TAG || c.userData % U32 >= |expected|
    ensures !IsComplete(expected, completions)
  {
    if IsComplete(expected, completions) {
      ExpectedOnes(expected, completions, c);
      assert false;
    }
  }

  /** Accepts exactly the complete batches of the expected size over canonically numbered writes. */
  method ValidateCompletionBatch(expected: seq<ExpectedWrite>, expectedCount: nat, completions: seq<Completion>)
    returns (r: Result<(), Failure>)
    requires |expected| <= U32
    ensures r.Ok? <==> |completions| == expectedCount && Canonical(expected) && IsComplete(expected, completions)
  {
    hide IsComplete, Tabled, Canonical;
    if |completions| != expectedCount {
      return Err(WrongCount);
    }
    var slots := new Option<int>[|expected|](_ => None);
    var failure, sync := FillTable(expected, completions, slots);
    if failure.Some? {
      return Err(failure.value);
    }
    CompleteTable(expected, completions, slots[..], sync);
    r := CheckTable(expected, slots[..], sync);
  }

  method CheckTable(expected: seq<ExpectedWrite>, slots: seq<Option<int>>, sync: Option<int>)
    returns (r: Result<(), Failure>)
    requires |slots| == |expected|
    ensures r.Ok? <==> Canonical(expected) && sync == Some(0) && forall i :: 0 <= i < |expected| ==>
      slots[i] == Some(expected[i].length)
  {
    for i := 0 to |expected|
      invariant forall j :: 0 <= j < i ==>
        expected[j].userData == WriteUserData(j) && slots[j] == Some(expected[j].length)
    {
      if expected[i].userData != WriteUserData(i) {
        return Err(Noncanonical(i));
      }
      if slots[i].None? {
        return Err(MissingWrite(i));
      }
      var result := slots[i].value;
      if result < 0 {
        return Err(WriteError(-result));
      }
      if result != expected[i].length {
        return Err(ShortWrite(i));
      }
    }
    if sync.None? {
      return Err(MissingSync);
    }
    if sync.value < 0 {
      return Err(SyncError(-sync.value));
    }
    if sync.value != 0 {
      return Err(StrangeSync);
    }
    r := Ok(());
  }

  /** The order of arrival does not matter. */
  lemma ArrivalOrderIsIrrelevant(expected: seq<ExpectedWrite>, a: seq<Completion>, b: seq<Completion>)
    requires multiset(a) == multiset(b)
    ensures IsComplete(expected, a) <==> IsComplete(expected, b)
    ensures IsComplete(expected, a) ==> |a| == |b| == |expected| + 1
  {
    if IsComplete(expected, a) {
      SyncArrives(expected, a);
      SyncArrives(expected, b);
    }
  }
}
