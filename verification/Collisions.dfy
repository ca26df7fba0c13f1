/** What equal hashes lead to. A commit compares only the hashed identities of worlds, and a snapshot only the hash of
    the journal in front of it; these are inputs for which that is not enough. */
module Collisions {
  import opened Words
  import opened Facts
  import opened Commits
  import opened FrameCodec
  import opened CommitFile
  import opened Worlds
  import opened Database
  import opened DigestCollision
  import F = SnapshotFile
  import R = SnapshotReopen
  import S = Snapshot
  import H = SnapshotSections

  /** A forget of the slot named FIRST makes a world on genesis that has the identity of genesis. */
  lemma GenesisAgain()
    ensures WorldIdOf(GENESIS, 1, 1, [Operation.Forget(FIRST)]) == GENESIS
  {
    Collide();
    var op := Operation.Forget(FIRST);
    hide Digest, LittleEndian;
    assert [op][1..] == [];
    assert LittleEndian(2, 1) == [2] by { OneByte(2); }
    assert EncodeOperations([op]) == [2] + (LittleEndian(16, 8) + FIRST);
    assert EncodeU64(GENESIS) + EncodeU64(1) + EncodeU64(1) + EncodeU64(|[op]|) + EncodeOperations([op]) == PREFIX + FIRST;
  }

  lemma OneByte(b: byte)
    ensures LittleEndian(b, 1) == [b]
  {
    assert LittleEndian(b / 256, 0) == [];
  }

  /** Two transactions taken from the genesis world, each forgetting that slot, are both committed: the second is stale,
      but the published world has the identity it was based on. Only a store that takes any frame stores it, and its
      frames rebuild no world any more. */
  method StaleCommit(linear: bool)
    returns (db: Database, first: Result<World, CommitError>, second: Result<World, CommitError>)
    ensures fresh(db) && db.linear == linear
    ensures first.Ok? && first.value.version == 1 && first.value.id == GENESIS_WORLD.id
    ensures second.Ok? <==> !linear
    ensures linear ==> second == Err(StoreFailed) && Rebuild(db.store) == Ok(first.value)
    ensures !linear ==> |db.store| == 2 && Rebuild(db.store) == Err(HistoryVersionMismatch(1, 0))
  {
    GenesisAgain();
    GenesisIsGood();
    hide WorldIdOf, Rebuild, ApplyAll, Good;
    db := new Database(linear, []);
    var t := new Transaction(GENESIS_WORLD);
    t.Forget(FIRST);
    var u := new Transaction(GENESIS_WORLD);
    u.Forget(FIRST);
    assert t.operations == [Operation.Forget(FIRST)];
    assert t.Proposed().id == GENESIS;
    first := db.Commit(t, true);
    second := db.Commit(u, true);
  }

  lemma GenesisIsGood()
    ensures Good(GENESIS_WORLD)
  {
  }

  /** A snapshot taken after one journal opens over another that never starts like it. */
  lemma OtherJournalOpens(m: S.Image, frames: seq<CommitFrame>, world: F.Metadata, more: seq<byte>)
    requires F.Writable(m) && |frames| < U64
    requires var meta := R.Describe(world, PREFIX + FIRST, |m.active|, |frames|);
      F.MetadataInRange(meta) && |F.FileBytes(meta, F.SectionsOf(m, frames))| <= F.MAX_SNAPSHOT
    ensures !(PREFIX + FIRST <= PREFIX + SECOND + more)
    ensures var meta := R.Describe(world, PREFIX + FIRST, |m.active|, |frames|);
      F.Open(F.FileBytes(meta, F.SectionsOf(m, frames)), PREFIX + SECOND + more) == Some(F.Opened(meta, m, H.HistoryBytes(frames)))
  {
    Collide();
    hide Digest, LittleEndian, F.Writable, F.MetadataInRange, F.FileBytes, F.SectionsOf, F.Open, H.HistoryBytes;
    var journal, other := PREFIX + FIRST, PREFIX + SECOND + more;
    assert other[..57] == PREFIX + SECOND;
    F.CreatedOpens(m, frames, R.Describe(world, journal, |m.active|, |frames|), other);
  }
}
