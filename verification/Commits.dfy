/** Commit frames: what is stored, replayed, encoded and recovered everywhere else. */
module Commits {
  import opened Facts
  import C = Calls

  datatype Operation = AllocateEntity(entity: nat) | Define(slot: Name, fact: Fact) | Forget(slot: Name)

  datatype CommitFrame = CommitFrame(parentWorld: nat, resultingWorld: nat, parentVersion: nat, resultingVersion: nat,
                                     resultingAllocator: nat, operations: seq<Operation>)

  /** The kernel call behind an operation; the entity number an allocation expects is not part of the call. */
  function CallOf(op: Operation): C.Call {
    match op
    case AllocateEntity(_) => C.NewEntity
    case Define(slot, fact) => C.Define(slot, fact)
    case Forget(slot) => C.Forget(slot)
  }

  function CallsOf(ops: seq<Operation>): (r: seq<C.Call>)
    ensures |r| == |ops|
    ensures forall i :: 0 <= i < |ops| ==> r[i] == CallOf(ops[i])
  {
    seq(|ops|, i requires 0 <= i < |ops| => CallOf(ops[i]))
  }

  /** All operations of a history, in order. */
  function Flatten(frames: seq<CommitFrame>): seq<Operation> {
    if frames == [] then [] else Flatten(frames[..|frames| - 1]) + frames[|frames| - 1].operations
  }
}
