/** The incremental signature of the set of active records: a count, a wrapping sum and an exclusive or
    of one token per record. */
module Signature {
  import opened Words
  import opened Store

  datatype ActiveSignature = ActiveSignature(count: nat, xor: nat, sum: nat)

  const NO_RECORDS: ActiveSignature := ActiveSignature(0, 0, 0)

  function ShiftXor(value: nat, divisor: nat): nat
    requires divisor > 0
  {
    Xor(value, value / divisor)
  }

  /** A 64-bit mix of the record id. Nothing below depends on what it computes. */
  function RecordToken(id: nat): nat {
    var a := (id + 0x9e3779b97f4a7c15) % U64;
    var b := (ShiftXor(a, 0x4000_0000) * 0xbf58476d1ce4e5b9) % U64;
    var c := (ShiftXor(b, 0x800_0000) * 0x94d049bb133111eb) % U64;
    ShiftXor(c, 0x8000_0000)
  }

  function AddToken(s: ActiveSignature, token: nat): ActiveSignature {
    ActiveSignature(s.count + 1, Xor(s.xor, token), (s.sum + token) % U64)
  }

  function RemoveToken(s: ActiveSignature, token: nat): ActiveSignature
    requires s.count > 0 && token < U64
  {
    ActiveSignature(s.count - 1, Xor(s.xor, token), (s.sum + U64 - token) % U64)
  }

  function AddRecord(s: ActiveSignature, id: nat): ActiveSignature {
    AddToken(s, RecordToken(id))
  }

  function RemoveRecord(s: ActiveSignature, id: nat): ActiveSignature
    requires s.count > 0
  {
    TokenIsWord(id);
    RemoveToken(s, RecordToken(id))
  }

  /** The signature computed afresh over a list of records. */
  function SignatureOf(ids: seq<nat>): ActiveSignature {
    if ids == [] then NO_RECORDS else AddRecord(SignatureOf(ids[..|ids| - 1]), ids[|ids| - 1])
  }

  // ---- Exclusive or is a group ----

  lemma {:induction false} XorCommutes(a: nat, b: nat)
    ensures Xor(a, b) == Xor(b, a)
    decreases a + b
  {
    if a != 0 && b != 0 {
      XorCommutes(a / 2, b / 2);
    }
  }

  lemma {:induction false} XorHalves(a: nat, b: nat)
    ensures Xor(a, b) / 2 == Xor(a / 2, b / 2)
    ensures Xor(a, b) % 2 == if a % 2 == b % 2 then 0 else 1
  {
  }

  lemma {:induction false} XorAssociates(a: nat, b: nat, c: nat)
    ensures Xor(Xor(a, b), c) == Xor(a, Xor(b, c))
    decreases a + b + c
  {
    if a + b + c > 0 {
      XorHalves(a, b);
      XorHalves(b, c);
      XorHalves(Xor(a, b), c);
      XorHalves(a, Xor(b, c));
      XorAssociates(a / 2, b / 2, c / 2);
      var x, y := Xor(Xor(a, b), c), Xor(a, Xor(b, c));
      assert x == 2 * (x / 2) + x % 2 && y == 2 * (y / 2) + y % 2;
    }
  }

  lemma XorZero(a: nat)
    ensures Xor(a, 0) == a
  {
  }

  lemma {:induction false} XorSelf(a: nat)
    ensures Xor(a, a) == 0
    decreases a
  {
    if a > 0 {
      XorSelf(a / 2);
    }
  }

  // ---- Adding, removing and reordering ----

  ghost predicate Wrapped(s: ActiveSignature) { s.sum < U64 }

  /** Removing a record undoes adding it. */
  lemma RemoveUndoesAdd(s: ActiveSignature, token: nat)
    requires Wrapped(s) && token < U64
    ensures RemoveToken(AddToken(s, token), token) == s
  {
    hide Xor;
    XorAssociates(s.xor, token, token);
    XorSelf(token);
    XorZero(s.xor);
  }

  lemma AddsCommute(s: ActiveSignature, a: nat, b: nat)
    requires Wrapped(s)
    ensures AddToken(AddToken(s, a), b) == AddToken(AddToken(s, b), a)
  {
    hide Xor;
    XorAssociates(s.xor, a, b);
    XorAssociates(s.xor, b, a);
    XorCommutes(a, b);
    ModAdd(s.sum, a, b);
    ModAdd(s.sum, b, a);
  }

  lemma ModAdd(x: nat, a: nat, b: nat)
    ensures ((x + a) % U64 + b) % U64 == (x + a + b) % U64
  {
    var q := (x + a) / U64;
    assert x + a == q * U64 + (x + a) % U64;
  }

  lemma {:induction false} SignatureIsWrapped(ids: seq<nat>)
    ensures Wrapped(SignatureOf(ids)) && SignatureOf(ids).count == |ids|
    decreases |ids|
  {
    if ids != [] {
      SignatureIsWrapped(ids[..|ids| - 1]);
    }
  }

  lemma {:induction false} MoveToEnd(ids: seq<nat>, i: nat)
    requires i < |ids|
    ensures SignatureOf(ids) == AddRecord(SignatureOf(ids[..i] + ids[i + 1..]), ids[i])
    decreases |ids|
  {
    hide RecordToken;
    var n := |ids| - 1;
    if i == n {
      assert ids[..i] + ids[i + 1..] == ids[..n];
    } else {
      var rest := ids[..i] + ids[i + 1..];
      MoveToEnd(ids[..n], i);
      assert ids[..n][..i] + ids[..n][i + 1..] == rest[..n - 1];
      SignatureIsWrapped(rest[..n - 1]);
      AddsCommute(SignatureOf(rest[..n - 1]), RecordToken(ids[i]), RecordToken(ids[n]));
    }
  }

  /** A full audit may visit the records in any order. */
  lemma {:induction false} SignatureIgnoresOrder(a: seq<nat>, b: seq<nat>)
    requires multiset(a) == multiset(b)
    ensures SignatureOf(a) == SignatureOf(b)
    decreases |a|
  {
    hide RecordToken;
    assert |multiset(a)| == |a| && |multiset(b)| == |b|;
    if a != [] {
      var n, x := |a| - 1, a[|a| - 1];
      assert a == a[..n] + [x];
      assert x in multiset(b);
      var i :| 0 <= i < |b| && b[i] == x;
      var rest := b[..i] + b[i + 1..];
      assert b == b[..i] + [b[i]] + b[i + 1..];
      MoveToEnd(b, i);
      assert multiset(rest) == multiset(b) - multiset{x} == multiset(a[..n]);
      SignatureIgnoresOrder(a[..n], rest);
    }
  }

  function SignatureOfSet(ids: set<nat>): ActiveSignature {
    SignatureOf(SortedIds(ids))
  }

  lemma {:induction false} NoDuplicates(ids: seq<nat>)
    requires forall i, j :: 0 <= i < j < |ids| ==> ids[i] != ids[j]
    ensures forall x :: multiset(ids)[x] == if x in ids then 1 else 0
    decreases |ids|
  {
    if ids != [] {
      var n := |ids| - 1;
      NoDuplicates(ids[..n]);
      assert ids == ids[..n] + [ids[n]];
      assert ids[n] !in ids[..n];
    }
  }

  /** Any listing of a set without repetition has the set's signature. */
  lemma ListingSignature(ids: seq<nat>, s: set<nat>)
    requires forall i, j :: 0 <= i < j < |ids| ==> ids[i] != ids[j]
    requires forall x :: x in ids <==> x in s
    ensures SignatureOf(ids) == SignatureOfSet(s)
  {
    hide SignatureOf, SortedIds;
    NoDuplicates(ids);
    NoDuplicates(SortedIds(s));
    assert multiset(ids) == multiset(SortedIds(s));
    SignatureIgnoresOrder(ids, SortedIds(s));
  }

  lemma SignatureAfterAdd(s: set<nat>, id: nat)
    requires id !in s
    ensures SignatureOfSet(s + {id}) == AddRecord(SignatureOfSet(s), id)
  {
    hide RecordToken;
    var ids := SortedIds(s) + [id];
    assert ids[..|ids| - 1] == SortedIds(s);
    ListingSignature(ids, s + {id});
  }

  lemma SignatureAfterRemove(s: set<nat>, id: nat)
    requires id in s
    ensures SignatureOfSet(s).count > 0
    ensures SignatureOfSet(s - {id}) == RemoveRecord(SignatureOfSet(s), id)
  {
    hide RecordToken;
    SignatureAfterAdd(s - {id}, id);
    assert s - {id} + {id} == s;
    SignatureIsWrapped(SortedIds(s - {id}));
    TokenIsWord(id);
    RemoveUndoesAdd(SignatureOfSet(s - {id}), RecordToken(id));
  }

  function Pow2(n: nat): nat {
    if n == 0 then 1 else 2 * Pow2(n - 1)
  }

  lemma {:induction false} XorBelow(a: nat, b: nat, n: nat)
    requires a < Pow2(n) && b < Pow2(n)
    ensures Xor(a, b) < Pow2(n)
    decreases n
  {
    if n > 0 && a > 0 && b > 0 {
      XorBelow(a / 2, b / 2, n - 1);
    }
  }

  lemma Pow2Byte(n: nat)
    ensures Pow2(n + 8) == 256 * Pow2(n)
  {
    assert Pow2(n + 4) == 2 * (2 * (2 * (2 * Pow2(n)))) by {
      assert Pow2(n + 2) == 2 * (2 * Pow2(n));
    }
    assert Pow2(n + 8) == 2 * (2 * (2 * (2 * Pow2(n + 4)))) by {
      assert Pow2(n + 6) == 2 * (2 * Pow2(n + 4));
    }
  }

  lemma Pow2Word()
    ensures Pow2(64) == U64
  {
    assert Pow2(0) == 1;
    hide Pow2;
    Pow2Byte(0);
    Pow2Byte(8);
    Pow2Byte(16);
    Pow2Byte(24);
    Pow2Byte(32);
    Pow2Byte(40);
    Pow2Byte(48);
    Pow2Byte(56);
  }

  lemma TokenIsWord(id: nat)
    ensures RecordToken(id) < U64
  {
    hide Xor, Pow2;
    Pow2Word();
    var a := (id + 0x9e3779b97f4a7c15) % U64;
    var b := (ShiftXor(a, 0x4000_0000) * 0xbf58476d1ce4e5b9) % U64;
    var c := (ShiftXor(b, 0x800_0000) * 0x94d049bb133111eb) % U64;
    XorBelow(c, c / 0x8000_0000, 64);
  }
}
