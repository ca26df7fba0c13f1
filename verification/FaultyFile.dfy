/** A file as the epoch store sees it: a byte sequence behind calls that may each succeed, fail, or fail after
    part of their effect. What happens is fixed by an arbitrary schedule, so a statement that holds for every
    schedule holds for every pattern of faults. A successful length or read tells the truth. */
module FaultyFile {
  import opened Words
  import opened Facts

  /** `amount` is how many bytes a write gets through, and whether a failing truncation has happened anyway;
      `debris` is what a failing whole-epoch transport leaves behind the start offset. */
  datatype Outcome = Outcome(ok: bool, amount: nat, debris: seq<byte>)

  function Zeros(n: nat): (r: seq<byte>)
    ensures |r| == n
  {
    seq(n, _ => 0)
  }

  /** Replace `data` into the bytes at `offset`, filling a gap before it with zeros. */
  function Overwrite(bytes: seq<byte>, offset: nat, data: seq<byte>): seq<byte> {
    var front := if offset <= |bytes| then bytes[..offset] else bytes + Zeros(offset - |bytes|);
    front + data + if offset + |data| <= |bytes| then bytes[offset + |data|..] else []
  }

  function Resized(bytes: seq<byte>, len: nat): seq<byte> {
    if len <= |bytes| then bytes[..len] else bytes + Zeros(len - |bytes|)
  }

  function Least(a: nat, b: nat): nat { if a < b then a else b }

  /** A failing submission is refused at once or fails later; `amount` tells which. */
  predicate Accepts(outcome: Outcome) {
    outcome.ok || outcome.amount > 0
  }

  /** A truncation that reports failure may have happened all the same; `amount` tells whether it has. */
  predicate Truncates(outcome: Outcome) {
    outcome.ok || outcome.amount > 0
  }

  // ---- How a file's schedule decides ----

  /** Whether a write of `n` bytes that starts at call `k` gets through, and the number of the call after its last one. */
  ghost function WriteRuns(schedule: nat -> Outcome, k: nat, n: nat): (bool, nat)
    decreases n
  {
    if n == 0 then (true, k)
    else
      var written := Least(schedule(k).amount, n);
      if !schedule(k).ok || written == 0 then (false, k + 1) else WriteRuns(schedule, k + 1, n - written)
  }

  /** What `n` calls from `k` on may write at most. */
  ghost function Amounts(schedule: nat -> Outcome, k: nat, n: nat): nat {
    if n == 0 then 0 else Amounts(schedule, k, n - 1) + schedule(k + n - 1).amount
  }

  ghost predicate AllProgress(schedule: nat -> Outcome, from: nat, to: nat) {
    forall k :: from <= k < to ==> schedule(k).ok && schedule(k).amount > 0
  }

  lemma AmountsFirst(schedule: nat -> Outcome, k: nat, n: nat)
    requires n > 0
    ensures Amounts(schedule, k, n) == schedule(k).amount + Amounts(schedule, k + 1, n - 1)
  {
    if n > 1 {
      AmountsFirst(schedule, k, n - 1);
    }
  }

  /** All but the last of a write's calls succeed with progress, and so does the last if the write gets through. */
  lemma {:induction false} WriteProgress(schedule: nat -> Outcome, k: nat, n: nat)
    requires n > 0
    ensures var (ok, next) := WriteRuns(schedule, k, n);
      k < next && AllProgress(schedule, k, next - 1) && (ok <==> AllProgress(schedule, next - 1, next))
    decreases n
  {
    if schedule(k).ok && 0 < schedule(k).amount < n {
      WriteProgress(schedule, k + 1, n - schedule(k).amount);
    }
  }

  /** The calls before a write's last one do not write everything; with the last, a write that gets through has. */
  lemma {:induction false} WriteAmounts(schedule: nat -> Outcome, k: nat, n: nat)
    requires n > 0
    ensures var (ok, next) := WriteRuns(schedule, k, n);
      k < next && Amounts(schedule, k, next - 1 - k) < n && (ok ==> Amounts(schedule, k, next - k) >= n)
    decreases n
  {
    var amount := schedule(k).amount;
    if schedule(k).ok && 0 < amount < n {
      var next := WriteRuns(schedule, k + 1, n - amount).1;
      WriteAmounts(schedule, k + 1, n - amount);
      AmountsFirst(schedule, k, next - 1 - k);
      AmountsFirst(schedule, k, next - k);
    } else {
      AmountsFirst(schedule, k, 1);
    }
  }

  /** A write gets through exactly when its calls all succeed with progress until they have written enough; it fails at
      the first call that fails or makes no progress before that. */
  lemma WriteRunsExactly(schedule: nat -> Outcome, k: nat, n: nat)
    requires n > 0
    ensures var (ok, next) := WriteRuns(schedule, k, n);
      && k < next && Amounts(schedule, k, next - 1 - k) < n
      && AllProgress(schedule, k, if ok then next else next - 1)
      && (ok ==> Amounts(schedule, k, next - k) >= n)
      && (!ok ==> !AllProgress(schedule, next - 1, next))
  {
    hide WriteRuns, Amounts;
    WriteProgress(schedule, k, n);
    WriteAmounts(schedule, k, n);
  }

  ghost function PiecesRun(schedule: nat -> Outcome, k: nat, pieces: seq<seq<byte>>): (bool, nat)
    decreases |pieces|
  {
    if pieces == [] then (true, k)
    else
      var (ok, next) := WriteRuns(schedule, k, |pieces[0]|);
      if ok then PiecesRun(schedule, next, pieces[1..]) else (false, next)
  }

  /** The call behind the pieces of a header syncs them. */
  ghost function HeaderRuns(schedule: nat -> Outcome, k: nat, pieces: seq<seq<byte>>): (bool, nat) {
    var (ok, next) := PiecesRun(schedule, k, pieces);
    if ok then (schedule(next).ok, next + 1) else (false, next)
  }

  /** The calls of opening a file: its length, the header if it is empty, and its content. */
  ghost function OpenRuns(schedule: nat -> Outcome, k: nat, empty: bool, pieces: seq<seq<byte>>): (bool, nat) {
    if !schedule(k).ok then (false, k + 1)
    else
      var (ok, next) := if empty then HeaderRuns(schedule, k + 1, pieces) else (true, k + 1);
      if ok then (schedule(next).ok, next + 1) else (false, next)
  }

  /** The call that reads a file opened at call `k`: the length comes before it, and for an empty file the pieces of
      the header and the call that syncs them. */
  ghost function ReadCall(schedule: nat -> Outcome, k: nat, empty: bool, pieces: seq<seq<byte>>): (read: nat)
    ensures read > 0
  {
    if empty then PiecesRun(schedule, k + 1, pieces).1 + 1 else k + 1
  }

  /** The calls up to the one that reads the file all succeed; the one before it syncs a new header. */
  ghost predicate Readable(schedule: nat -> Outcome, k: nat, empty: bool, pieces: seq<seq<byte>>) {
    var read := ReadCall(schedule, k, empty, pieces);
    && schedule(k).ok && schedule(read).ok
    && (empty ==> PiecesRun(schedule, k + 1, pieces).0 && schedule(read - 1).ok)
  }

  lemma OpensByItsCalls(schedule: nat -> Outcome, k: nat, empty: bool, pieces: seq<seq<byte>>)
    ensures OpenRuns(schedule, k, empty, pieces).0 <==> Readable(schedule, k, empty, pieces)
    ensures Readable(schedule, k, empty, pieces) ==>
      OpenRuns(schedule, k, empty, pieces).1 == ReadCall(schedule, k, empty, pieces) + 1
  {
    hide PiecesRun;
  }

  function Joined(pieces: seq<seq<byte>>): seq<byte> {
    if pieces == [] then [] else pieces[0] + Joined(pieces[1..])
  }

  lemma JoinedThree(a: seq<byte>, b: seq<byte>, c: seq<byte>)
    ensures Joined([a, b, c]) == a + b + c
  {
    assert [a, b, c][1..] == [b, c] && [b, c][1..] == [c] && [c][1..] == [];
    assert Joined([b, c]) == b + Joined([c]) && Joined([c]) == c;
  }

  /** How many of `n` bytes a write that starts at call `k` gets into the file, whether or not it gets through. */
  ghost function Landed(schedule: nat -> Outcome, k: nat, n: nat): (landed: nat)
    ensures landed <= n
    ensures WriteRuns(schedule, k, n).0 ==> landed == n
    decreases n
  {
    if n == 0 then 0
    else
      var written := Least(schedule(k).amount, n);
      if !schedule(k).ok || written == 0 then written else written + Landed(schedule, k + 1, n - written)
  }

  lemma WriteStep(schedule: nat -> Outcome, k: nat, n: nat)
    requires n > 0
    ensures var written := Least(schedule(k).amount, n);
      if !schedule(k).ok || written == 0 then WriteRuns(schedule, k, n) == (false, k + 1) && Landed(schedule, k, n) == written
      else
        && WriteRuns(schedule, k, n) == WriteRuns(schedule, k + 1, n - written)
        && Landed(schedule, k, n) == written + Landed(schedule, k + 1, n - written)
  {
  }

  lemma NothingToWrite(schedule: nat -> Outcome, k: nat)
    ensures WriteRuns(schedule, k, 0) == (true, k) && Landed(schedule, k, 0) == 0
  {
  }

  lemma AppendedPrefix(bytes: seq<byte>, data: seq<byte>, done: nat, n: nat)
    requires done + n <= |data|
    ensures Overwrite(bytes + data[..done], |bytes + data[..done]|, data[done..][..n]) == bytes + data[..done + n]
  {
    assert data[..done] + data[done..][..n] == data[..done + n];
  }

  class File {
    var bytes: seq<byte>
    var calls: nat
    const schedule: nat -> Outcome
    /** The content at the last successful sync: what a crash cannot take away. */
    ghost var durable: seq<byte>

    constructor (bytes: seq<byte>, schedule: nat -> Outcome)
      ensures this.bytes == bytes == durable && calls == 0 && this.schedule == schedule
    {
      this.bytes, this.calls, this.schedule, this.durable := bytes, 0, schedule, bytes;
    }

    method Len() returns (len: Option<nat>)
      modifies this
      ensures bytes == old(bytes) && durable == old(durable) && calls == old(calls) + 1
      ensures len == if schedule(old(calls)).ok then Some(|bytes|) else None
    {
      len := if schedule(calls).ok then Some(|bytes|) else None;
      calls := calls + 1;
    }

    /** Writes a prefix of the data, possibly all of it and possibly none, whether or not it reports success. */
    method WriteAt(offset: nat, data: seq<byte>) returns (written: Option<nat>)
      modifies this
      ensures calls == old(calls) + 1 && durable == old(durable)
      ensures var n := Least(schedule(old(calls)).amount, |data|);
        && bytes == Overwrite(old(bytes), offset, data[..n])
        && written == if schedule(old(calls)).ok then Some(n) else None
    {
      var outcome := schedule(calls);
      var n := Least(outcome.amount, |data|);
      bytes := Overwrite(bytes, offset, data[..n]);
      written := if outcome.ok then Some(n) else None;
      calls := calls + 1;
    }

    /** Write until everything is written, the file makes no progress, or a call fails. */
    method WriteAll(start: nat, data: seq<byte>) returns (ok: bool)
      requires start == |bytes|
      modifies this
      ensures bytes == old(bytes) + data[..Landed(schedule, old(calls), |data|)]
      ensures ok ==> bytes == old(bytes) + data
      ensures (ok, calls) == WriteRuns(schedule, old(calls), |data|) && durable == old(durable)
    {
      hide WriteRuns, Landed, Overwrite;
      var offset, rest := start, data;
      assert bytes + data[..0] == bytes && data[0..] == data;
      while rest != []
        invariant start <= offset == |bytes| && offset - start <= |data| && durable == old(durable)
        invariant rest == data[offset - start..] && bytes == old(bytes) + data[..offset - start]
        invariant WriteRuns(schedule, calls, |rest|) == WriteRuns(schedule, old(calls), |data|)
        invariant offset - start + Landed(schedule, calls, |rest|) == Landed(schedule, old(calls), |data|)
        decreases |rest|
      {
        ghost var n := Least(schedule(calls).amount, |rest|);
        AppendedPrefix(old(bytes), data, offset - start, n);
        WriteStep(schedule, calls, |rest|);
        var written := WriteAt(offset, rest);
        if written.None? || written.value == 0 {
          return false;
        }
        assert rest[n..] == data[offset + n - start..];
        offset, rest := offset + written.value, rest[written.value..];
      }
      NothingToWrite(schedule, calls);
      assert data[..|data|] == data;
      ok := true;
    }

    /** Write the header of an empty file, piece by piece, and make it durable. */
    method WriteHeader(pieces: seq<seq<byte>>) returns (ok: bool)
      requires bytes == []
      modifies this
      ensures bytes <= Joined(pieces) && (ok ==> bytes == durable == Joined(pieces))
      ensures (ok, calls) == HeaderRuns(schedule, old(calls), pieces)
    {
      hide WriteRuns;
      assert pieces[0..] == pieces;
      for i := 0 to |pieces|
        invariant bytes + Joined(pieces[i..]) == Joined(pieces)
        invariant PiecesRun(schedule, calls, pieces[i..]) == PiecesRun(schedule, old(calls), pieces)
      {
        assert pieces[i..][1..] == pieces[i + 1..];
        ok := WriteAll(|bytes|, pieces[i]);
        if !ok {
          return;
        }
      }
      ok := SyncData();
    }

    /** Read a file that is there, or one whose header is written first. */
    method ReadOrCreate(pieces: seq<seq<byte>>) returns (content: Option<seq<byte>>)
      modifies this
      ensures var all := if old(bytes) == [] then Joined(pieces) else old(bytes);
        bytes <= all && (old(bytes) != [] ==> bytes == all) && (content.Some? ==> bytes == all && content.value == all)
      ensures old(bytes) == [] && content.Some? ==> durable == bytes
      ensures old(bytes) != [] ==> durable == old(durable)
      ensures (content.Some?, calls) == OpenRuns(schedule, old(calls), old(bytes) == [], pieces)
    {
      hide PiecesRun, HeaderRuns;
      var len := Len();
      if len.None? {
        return None;
      }
      if len.value == 0 {
        var ok := WriteHeader(pieces);
        if !ok {
          return None;
        }
      }
      content := ReadAll();
    }

    /** Only a sync that succeeds makes what was written durable. */
    method SyncData() returns (ok: bool)
      modifies this
      ensures bytes == old(bytes) && calls == old(calls) + 1 && ok == schedule(old(calls)).ok
      ensures durable == if ok then bytes else old(durable)
    {
      ok := schedule(calls).ok;
      durable := if ok then bytes else durable;
      calls := calls + 1;
    }

    method SetLen(len: nat) returns (ok: bool)
      modifies this
      ensures calls == old(calls) + 1 && ok == schedule(old(calls)).ok && durable == old(durable)
      ensures bytes == if Truncates(schedule(old(calls))) then Resized(old(bytes), len) else old(bytes)
    {
      var outcome := schedule(calls);
      ok := outcome.ok;
      if Truncates(outcome) {
        bytes := Resized(bytes, len);
      }
      calls := calls + 1;
    }

    method ReadAll() returns (content: Option<seq<byte>>)
      modifies this
      ensures bytes == old(bytes) && durable == old(durable) && calls == old(calls) + 1
      ensures content == if schedule(old(calls)).ok then Some(bytes) else None
    {
      content := if schedule(calls).ok then Some(bytes) else None;
      calls := calls + 1;
    }

    /** Hand a whole epoch to the transport. A refused submission has already done what damage it does. */
    method Submit(offset: nat, data: seq<byte>) returns (accepted: bool)
      requires offset <= |bytes|
      modifies this
      ensures (accepted <==> Accepts(schedule(old(calls)))) && durable == old(durable)
      ensures accepted ==> bytes == old(bytes) && calls == old(calls)
      ensures !accepted ==> calls == old(calls) + 1 && bytes == old(bytes)[..offset] + schedule(old(calls)).debris
    {
      var outcome := schedule(calls);
      accepted := Accepts(outcome);
      if !accepted {
        bytes := bytes[..offset] + outcome.debris;
        calls := calls + 1;
      }
    }

    /** Wait for a submitted epoch: all of the data has landed and is synced, or anything at all lies behind the
        offset. */
    method Complete(offset: nat, data: seq<byte>) returns (ok: bool)
      requires offset <= |bytes|
      modifies this
      ensures calls == old(calls) + 1 && ok == schedule(old(calls)).ok
      ensures bytes == if ok then Overwrite(old(bytes), offset, data) else old(bytes)[..offset] + schedule(old(calls)).debris
      ensures durable == if ok then bytes else old(durable)
    {
      var outcome := schedule(calls);
      ok := outcome.ok;
      bytes := if ok then Overwrite(bytes, offset, data) else bytes[..offset] + outcome.debris;
      durable := if ok then bytes else durable;
      calls := calls + 1;
    }

    /** Both at once. */
    method Transport(offset: nat, data: seq<byte>) returns (ok: bool)
      requires offset <= |bytes|
      modifies this
      ensures calls == old(calls) + 1 && ok == schedule(old(calls)).ok
      ensures bytes == if ok then Overwrite(old(bytes), offset, data) else old(bytes)[..offset] + schedule(old(calls)).debris
      ensures durable == if ok then bytes else old(durable)
    {
      ok := Submit(offset, data);
      if ok {
        ok := Complete(offset, data);
      }
    }
  }
}
