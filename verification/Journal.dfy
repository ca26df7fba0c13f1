/** The admission journal: numbered epochs of intents, in the same framing as the commit log. What an intent's
    bytes mean is left to a codec that reads back what it wrote. */
module Journal {
  import opened Words
  import opened Facts
  import opened Framing

  datatype Codec<!I> = Codec(encode: I -> seq<byte>, decode: seq<byte> -> Option<I>)

  ghost predicate ReadsBack<I(!new)>(codec: Codec<I>) {
    forall i: I :: codec.decode(codec.encode(i)) == Some(i)
  }

  // "FTHADM01", version 1, a reserved word
  const JOURNAL_MAGIC: seq<byte> := [0x46, 0x54, 0x48, 0x41, 0x44, 0x4D, 0x30, 0x31]
  const JOURNAL_VERSION: nat := 1
  const JOURNAL_HEADER_LEN: nat := 16

  // "AEP1"
  const EPOCH_MAGIC: seq<byte> := [0x41, 0x45, 0x50, 0x31]

  function JournalHeader(): (r: seq<byte>)
    ensures |r| == JOURNAL_HEADER_LEN
  {
    JOURNAL_MAGIC + LittleEndian(JOURNAL_VERSION, 4) + LittleEndian(0, 4)
  }

  // ---- Epoch payloads ----

  function EncodeIntent<I>(codec: Codec<I>, intent: I): seq<byte> {
    LittleEndian(|codec.encode(intent)|, 4) + codec.encode(intent)
  }

  function EncodeIntents<I>(codec: Codec<I>, intents: seq<I>): seq<byte> {
    if intents == [] then [] else EncodeIntent(codec, intents[0]) + EncodeIntents(codec, intents[1..])
  }

  function EpochPayload<I>(codec: Codec<I>, id: nat, intents: seq<I>): seq<byte> {
    LittleEndian(id, 8) + LittleEndian(|intents|, 4) + EncodeIntents(codec, intents)
  }

  /** Decode `n` length-prefixed intents that fill the bytes exactly. */
  function DecodeIntents<I>(codec: Codec<I>, n: nat, s: seq<byte>): Option<seq<I>> {
    if n == 0 then
      if s == [] then Some([]) else None
    else if |s| < 4 then None
    else
      var length := FromLittleEndian(s[..4]);
      if |s| - 4 < length then None
      else match codec.decode(s[4..4 + length])
        case None => None
        case Some(intent) =>
          match DecodeIntents(codec, n - 1, s[4 + length..])
          case None => None
          case Some(rest) => Some([intent] + rest)
  }

  datatype NumberedEpoch<I> = NumberedEpoch(id: nat, intents: seq<I>)

  function DecodeEpoch<I>(codec: Codec<I>, payload: seq<byte>): Option<NumberedEpoch<I>> {
    if |payload| < 12 then None
    else match DecodeIntents(codec, FromLittleEndian(payload[8..12]), payload[12..])
      case None => None
      case Some(intents) => Some(NumberedEpoch(FromLittleEndian(payload[..8]), intents))
  }

  lemma {:induction false} DecodeIntentsRoundTrip<I(!new)>(codec: Codec<I>, intents: seq<I>)
    requires ReadsBack(codec) && |EncodeIntents(codec, intents)| < U32
    ensures DecodeIntents(codec, |intents|, EncodeIntents(codec, intents)) == Some(intents)
    decreases |intents|
  {
    hide LittleEndian, FromLittleEndian;
    if intents != [] {
      var encoded, rest := codec.encode(intents[0]), EncodeIntents(codec, intents[1..]);
      var s := EncodeIntents(codec, intents);
      assert s == LittleEndian(|encoded|, 4) + encoded + rest;
      WordWidths();
      LittleEndianRoundTrip(|encoded|, 4);
      assert s[..4] == LittleEndian(|encoded|, 4) && s[4..4 + |encoded|] == encoded && s[4 + |encoded|..] == rest;
      DecodeIntentsRoundTrip(codec, intents[1..]);
      assert codec.decode(codec.encode(intents[0])) == Some(intents[0]);
      assert [intents[0]] + intents[1..] == intents;
    }
  }

  lemma {:induction false} CountBelowLength<I>(codec: Codec<I>, intents: seq<I>)
    ensures |intents| <= |EncodeIntents(codec, intents)|
    decreases |intents|
  {
    if intents != [] {
      CountBelowLength(codec, intents[1..]);
    }
  }

  /** An epoch whose payload is within the reader's limit reads back with its number and its intents. */
  lemma EpochRoundTrip<I(!new)>(codec: Codec<I>, id: nat, intents: seq<I>)
    requires ReadsBack(codec) && id < U64 && |EpochPayload(codec, id, intents)| <= MAX_PAYLOAD
    ensures DecodeEpoch(codec, EpochPayload(codec, id, intents)) == Some(NumberedEpoch(id, intents))
  {
    var payload, body := EpochPayload(codec, id, intents), EncodeIntents(codec, intents);
    WordWidths();
    CountBelowLength(codec, intents);
    LittleEndianRoundTrip(id, 8);
    LittleEndianRoundTrip(|intents|, 4);
    DecodeIntentsRoundTrip(codec, intents);
    assert payload[..8] == LittleEndian(id, 8) && payload[8..12] == LittleEndian(|intents|, 4) && payload[12..] == body;
  }

  method WriteEpoch<I>(codec: Codec<I>, id: nat, intents: seq<I>) returns (record: seq<byte>)
    ensures record == Record(EPOCH_MAGIC, EpochPayload(codec, id, intents))
  {
    var payload := LittleEndian(id, 8) + LittleEndian(|intents|, 4);
    assert intents[0..] == intents;
    for i := 0 to |intents|
      invariant payload + EncodeIntents(codec, intents[i..]) == EpochPayload(codec, id, intents)
    {
      assert intents[i..][1..] == intents[i + 1..];
      var encoded := codec.encode(intents[i]);
      payload := payload + LittleEndian(|encoded|, 4);
      payload := payload + encoded;
    }
    assert intents[|intents|..] == [] && payload + [] == payload;
    record := Record(EPOCH_MAGIC, payload);
  }

  function Prepend<I>(done: seq<I>, rest: Option<seq<I>>): Option<seq<I>> {
    match rest case None => None case Some(intents) => Some(done + intents)
  }

  lemma DecodeStep<I>(codec: Codec<I>, n: nat, payload: seq<byte>, position: nat, done: seq<I>)
    requires n > 0 && position <= |payload|
    ensures var all := Prepend(done, DecodeIntents(codec, n, payload[position..]));
      if |payload| < position + 4 then all == None
      else
        var end := position + 4 + FromLittleEndian(payload[position..position + 4]);
        if end > |payload| then all == None
        else match codec.decode(payload[position + 4..end])
          case None => all == None
          case Some(intent) => all == Prepend(done + [intent], DecodeIntents(codec, n - 1, payload[end..]))
  {
    hide FromLittleEndian;
    var s := payload[position..];
    if |s| >= 4 {
      var length := FromLittleEndian(s[..4]);
      assert s[..4] == payload[position..position + 4];
      if 4 + length <= |s| {
        assert s[4..4 + length] == payload[position + 4..position + 4 + length];
        assert s[4 + length..] == payload[position + 4 + length..];
        var intent := codec.decode(s[4..4 + length]);
        var later := DecodeIntents(codec, n - 1, s[4 + length..]);
        if intent.Some? && later.Some? {
          assert done + ([intent.value] + later.value) == (done + [intent.value]) + later.value;
        }
      }
    }
  }

  lemma DecodeEnds<I>(codec: Codec<I>, rest: seq<byte>, done: seq<I>, any: Option<seq<I>>)
    ensures Prepend(done, DecodeIntents(codec, 0, rest)) == if rest == [] then Some(done) else None
    ensures Prepend([], any) == any
  {
    assert done + [] == done;
    assert any.Some? ==> [] + any.value == any.value;
  }

  method ReadIntents<I>(codec: Codec<I>, count: nat, payload: seq<byte>, start: nat) returns (read: Option<seq<I>>)
    requires start <= |payload|
    ensures read == DecodeIntents(codec, count, payload[start..])
  {
    hide DecodeIntents, Prepend, FromLittleEndian;
    var intents: seq<I> := [];
    var position := start;
    ghost var all := DecodeIntents(codec, count, payload[start..]);
    DecodeEnds(codec, [], [], all);
    for i := 0 to count
      invariant start <= position <= |payload|
      invariant all == Prepend(intents, DecodeIntents(codec, count - i, payload[position..]))
    {
      DecodeStep(codec, count - i, payload, position, intents);
      if |payload| < position + 4 {
        return None;
      }
      var end := position + 4 + FromLittleEndian(payload[position..position + 4]);
      if end > |payload| {
        return None;
      }
      var intent := codec.decode(payload[position + 4..end]);
      if intent.None? {
        return None;
      }
      intents := intents + [intent.value];
      position := end;
    }
    DecodeEnds(codec, payload[position..], intents, None);
    read := if position == |payload| then Some(intents) else None;
  }

  /** Texts one after the other, each behind its length. */
  ghost function Prefixed(texts: seq<seq<byte>>): seq<byte> {
    if texts == [] then [] else LittleEndian(|texts[0]|, 4) + texts[0] + Prefixed(texts[1..])
  }

  ghost predicate Spells<I(!new)>(codec: Codec<I>, texts: seq<seq<byte>>, intents: seq<I>) {
    && |texts| == |intents|
    && forall i :: 0 <= i < |texts| ==> |texts[i]| < U32 && codec.decode(texts[i]) == Some(intents[i])
  }

  ghost predicate SpellsEpoch<I(!new)>(codec: Codec<I>, payload: seq<byte>, epoch: NumberedEpoch<I>, texts: seq<seq<byte>>) {
    && epoch.id < U64 && |texts| < U32 && Spells(codec, texts, epoch.intents)
    && payload == LittleEndian(epoch.id, 8) + LittleEndian(|texts|, 4) + Prefixed(texts)
  }

  lemma {:induction false} SpelledDecodes<I(!new)>(codec: Codec<I>, texts: seq<seq<byte>>, intents: seq<I>)
    requires Spells(codec, texts, intents)
    ensures DecodeIntents(codec, |texts|, Prefixed(texts)) == Some(intents)
    decreases |texts|
  {
    hide LittleEndian, FromLittleEndian, Pow256;
    if texts != [] {
      var text, s := texts[0], Prefixed(texts);
      var rest := Prefixed(texts[1..]);
      WordWidths();
      LittleEndianRoundTrip(|text|, 4);
      assert s[..4] == LittleEndian(|text|, 4) && s[4..4 + |text|] == text && s[4 + |text|..] == rest;
      SpelledDecodes(codec, texts[1..], intents[1..]);
      assert [intents[0]] + intents[1..] == intents;
    }
  }

  lemma {:induction false} DecodedIsSpelled<I(!new)>(codec: Codec<I>, n: nat, s: seq<byte>)
    returns (texts: seq<seq<byte>>)
    requires DecodeIntents(codec, n, s).Some?
    ensures |texts| == n && Spells(codec, texts, DecodeIntents(codec, n, s).value) && s == Prefixed(texts)
  {
    hide LittleEndian, FromLittleEndian, Pow256;
    texts := [];
    if n > 0 {
      var length := FromLittleEndian(s[..4]);
      var text := s[4..4 + length];
      WordWidths();
      FromLittleEndianRoundTrip(s[..4]);
      var later := DecodedIsSpelled(codec, n - 1, s[4 + length..]);
      texts := [text] + later;
      assert texts[1..] == later;
      assert s == s[..4] + text + s[4 + length..];
    }
  }

  /** A payload is an epoch's exactly when it is a number, a count, and that many texts behind their lengths, each of
      which the codec takes, and nothing else. */
  lemma EpochExactly<I(!new)>(codec: Codec<I>, payload: seq<byte>, epoch: NumberedEpoch<I>)
    ensures DecodeEpoch(codec, payload) == Some(epoch) <==> exists texts :: SpellsEpoch(codec, payload, epoch, texts)
  {
    hide LittleEndian, FromLittleEndian, Pow256, DecodeIntents, Prefixed, Spells;
    WordWidths();
    if DecodeEpoch(codec, payload) == Some(epoch) {
      var texts := DecodedIsSpelled(codec, FromLittleEndian(payload[8..12]), payload[12..]);
      FromLittleEndianRoundTrip(payload[..8]);
      FromLittleEndianRoundTrip(payload[8..12]);
      assert payload == payload[..8] + payload[8..12] + payload[12..];
      assert SpellsEpoch(codec, payload, epoch, texts);
    }
    if exists texts :: SpellsEpoch(codec, payload, epoch, texts) {
      var texts :| SpellsEpoch(codec, payload, epoch, texts);
      LittleEndianRoundTrip(epoch.id, 8);
      LittleEndianRoundTrip(|texts|, 4);
      assert payload[..8] == LittleEndian(epoch.id, 8) && payload[8..12] == LittleEndian(|texts|, 4);
      assert payload[12..] == Prefixed(texts);
      SpelledDecodes(codec, texts, epoch.intents);
    }
  }

  method ReadEpoch<I>(codec: Codec<I>, payload: seq<byte>) returns (epoch: Option<NumberedEpoch<I>>)
    ensures epoch == DecodeEpoch(codec, payload)
  {
    if |payload| < 12 {
      return None;
    }
    var intents := ReadIntents(codec, FromLittleEndian(payload[8..12]), payload, 12);
    epoch := if intents.Some? then Some(NumberedEpoch(FromLittleEndian(payload[..8]), intents.value)) else None;
  }

  // ---- The journal ----

  function EpochPayloads<I>(codec: Codec<I>, epochs: seq<seq<I>>): (r: seq<seq<byte>>)
    ensures |r| == |epochs| && forall i :: 0 <= i < |r| ==> r[i] == EpochPayload(codec, i + 1, epochs[i])
  {
    seq(|epochs|, i requires 0 <= i < |epochs| => EpochPayload(codec, i + 1, epochs[i]))
  }

  function JournalBytes<I>(codec: Codec<I>, epochs: seq<seq<I>>): (r: seq<byte>)
    ensures |r| >= JOURNAL_HEADER_LEN
  {
    JournalHeader() + Records(EPOCH_MAGIC, EpochPayloads(codec, epochs))
  }

  /** The reader's limits, which the writer does not check. */
  ghost predicate Recoverable<I>(codec: Codec<I>, epochs: seq<seq<I>>) {
    |epochs| < U64 && forall i :: 0 <= i < |epochs| ==> |EpochPayload(codec, i + 1, epochs[i])| <= MAX_PAYLOAD
  }

  function AcceptEpoch<I>(codec: Codec<I>): Acceptor<seq<I>> {
    (epochs: seq<seq<I>>, payload: seq<byte>) =>
      match DecodeEpoch(codec, payload)
      case None => None
      case Some(epoch) => if epoch.id == |epochs| + 1 then Some(epoch.intents) else None
  }

  /** Read a journal; the reserved word of the header is not looked at. */
  function ReadJournal<I>(codec: Codec<I>, bytes: seq<byte>): Option<Scan<seq<I>>> {
    if |bytes| < JOURNAL_HEADER_LEN || bytes[..8] != JOURNAL_MAGIC || FromLittleEndian(bytes[8..12]) != JOURNAL_VERSION then None
    else Some(ScanFrom(EPOCH_MAGIC, AcceptEpoch(codec), bytes, [], JOURNAL_HEADER_LEN))
  }

  lemma JournalHeaderIsRead<I>(codec: Codec<I>, bytes: seq<byte>)
    requires JournalHeader() <= bytes
    ensures ReadJournal(codec, bytes) == Some(ScanFrom(EPOCH_MAGIC, AcceptEpoch(codec), bytes, [], JOURNAL_HEADER_LEN))
  {
    hide ScanFrom;
    WordWidths();
    LittleEndianRoundTrip(JOURNAL_VERSION, 4);
    var h := JournalHeader();
    assert bytes[..16] == h;
    assert bytes[..8] == h[..8] == JOURNAL_MAGIC;
    assert bytes[8..12] == h[8..12] == LittleEndian(JOURNAL_VERSION, 4);
  }

  /** These payloads are the epochs', numbered from one. */
  ghost predicate Epochs<I(!new)>(codec: Codec<I>, payloads: seq<seq<byte>>, epochs: seq<seq<I>>) {
    && |payloads| == |epochs|
    && forall i :: 0 <= i < |epochs| ==>
         |payloads[i]| <= MAX_PAYLOAD && DecodeEpoch(codec, payloads[i]) == Some(NumberedEpoch(i + 1, epochs[i]))
  }

  lemma AcceptedAreEpochs<I(!new)>(codec: Codec<I>, payloads: seq<seq<byte>>, epochs: seq<seq<I>>)
    requires Accepted(AcceptEpoch(codec), [], epochs, payloads)
    ensures Epochs(codec, payloads, epochs)
  {
    hide DecodeEpoch;
    forall i | 0 <= i < |epochs|
      ensures |payloads[i]| <= MAX_PAYLOAD && DecodeEpoch(codec, payloads[i]) == Some(NumberedEpoch(i + 1, epochs[i]))
    {
      assert AcceptEpoch(codec)([] + epochs[..i], payloads[i]) == Some(epochs[i]);
    }
  }

  /** The bytes are neither an unfinished record nor the whole record of the epoch with this number. */
  ghost predicate NoEpoch<I(!new)>(codec: Codec<I>, id: nat, rest: seq<byte>) {
    && !Unfinished(EPOCH_MAGIC, rest)
    && forall payload :: |payload| <= MAX_PAYLOAD && Record(EPOCH_MAGIC, payload) <= rest ==>
         var epoch := DecodeEpoch(codec, payload); epoch.None? || epoch.value.id != id
  }

  lemma DamageIsNoEpoch<I(!new)>(codec: Codec<I>, epochs: seq<seq<I>>, rest: seq<byte>)
    requires Damaged(EPOCH_MAGIC, AcceptEpoch(codec), epochs, rest)
    ensures NoEpoch(codec, |epochs| + 1, rest)
  {
    hide DecodeEpoch, Record, Unfinished;
  }

  /** A journal reads exactly when it starts with its magic and version, and then as the longest run of epochs numbered
      from one: behind it lies an incomplete record, or something that is neither one nor the next epoch's record, and
      the journal is corrupt. */
  lemma JournalReadsExactly<I(!new)>(codec: Codec<I>, bytes: seq<byte>)
    returns (epochs: seq<seq<I>>, payloads: seq<seq<byte>>)
    ensures ReadJournal(codec, bytes).Some? <==>
      |bytes| >= JOURNAL_HEADER_LEN && bytes[..12] == JOURNAL_MAGIC + LittleEndian(JOURNAL_VERSION, 4)
    ensures ReadJournal(codec, bytes).Some? ==>
      var scan := ReadJournal(codec, bytes).value;
      && JOURNAL_HEADER_LEN <= scan.offset <= |bytes| && Epochs(codec, payloads, epochs)
      && bytes[JOURNAL_HEADER_LEN..scan.offset] == Records(EPOCH_MAGIC, payloads)
      && (scan.Scan? ==> scan.items == epochs && Unfinished(EPOCH_MAGIC, bytes[scan.offset..]))
      && (scan.Corrupt? ==> NoEpoch(codec, |epochs| + 1, bytes[scan.offset..]))
  {
    hide NoEpoch, Damaged;
    hide ScanFrom, Records, Record, DecodeEpoch, Unfinished, Accepted, LittleEndian, FromLittleEndian, Pow256;
    epochs, payloads := [], [];
    JournalHeaderExactly(codec, bytes);
    if ReadJournal(codec, bytes).Some? {
      epochs, payloads := ScanStops(EPOCH_MAGIC, AcceptEpoch(codec), bytes, [], JOURNAL_HEADER_LEN);
      assert [] + epochs == epochs;
      AcceptedAreEpochs(codec, payloads, epochs);
      var scan := ReadJournal(codec, bytes).value;
      if scan.Corrupt? {
        DamageIsNoEpoch(codec, epochs, bytes[scan.offset..]);
      }
    }
  }

  lemma JournalHeaderExactly<I>(codec: Codec<I>, bytes: seq<byte>)
    ensures ReadJournal(codec, bytes).Some? <==>
      |bytes| >= JOURNAL_HEADER_LEN && bytes[..12] == JOURNAL_MAGIC + LittleEndian(JOURNAL_VERSION, 4)
  {
    hide ScanFrom, LittleEndian, FromLittleEndian, Pow256;
    WordWidths();
    LittleEndianRoundTrip(JOURNAL_VERSION, 4);
    if |bytes| >= JOURNAL_HEADER_LEN {
      FromLittleEndianRoundTrip(bytes[8..12]);
      assert bytes[..12] == bytes[..8] + bytes[8..12];
      assert bytes[..12][..8] == bytes[..8] && bytes[..12][8..] == bytes[8..12];
    }
  }

  lemma EpochsAreAccepted<I(!new)>(codec: Codec<I>, epochs: seq<seq<I>>)
    requires ReadsBack(codec) && Recoverable(codec, epochs)
    ensures Accepted(AcceptEpoch(codec), [], epochs, EpochPayloads(codec, epochs))
  {
    hide DecodeEpoch, EpochPayload, ReadsBack;
    forall i | 0 <= i < |epochs|
      ensures |EpochPayloads(codec, epochs)[i]| <= MAX_PAYLOAD
      ensures AcceptEpoch(codec)([] + epochs[..i], EpochPayloads(codec, epochs)[i]) == Some(epochs[i])
    {
      EpochRoundTrip(codec, i + 1, epochs[i]);
    }
  }

  /** A journal of durable epochs, followed by any prefix of the record of one more, reads back as the durable
      epochs in order, or as those and the one more, and never as anything else. */
  lemma CrashRecovery<I(!new)>(codec: Codec<I>, durable: seq<seq<I>>, next: seq<I>, cut: nat)
    requires ReadsBack(codec) && Recoverable(codec, durable + [next])
    requires |JournalBytes(codec, durable)| <= cut <= |JournalBytes(codec, durable + [next])|
    ensures var all := JournalBytes(codec, durable + [next]);
      && JournalBytes(codec, durable) <= all
      && ReadJournal(codec, all[..cut]) == Some(if cut == |all| then Scan(durable + [next], cut)
                                                 else Scan(durable, |JournalBytes(codec, durable)|))
  {
    hide ScanFrom, Records, ReadJournal, Whole, JournalHeader, EpochPayload;
    hide ReadsBack, Recoverable, Accepted, EpochPayloads;
    var epochs := durable + [next];
    var payloads, old_payloads := EpochPayloads(codec, epochs), EpochPayloads(codec, durable);
    var room := cut - JOURNAL_HEADER_LEN;
    EpochsAreAccepted(codec, epochs);
    CutScan(EPOCH_MAGIC, AcceptEpoch(codec), JournalHeader(), [], epochs, payloads, room);
    PayloadsOfMore(codec, durable, next);
    LastRecord(EPOCH_MAGIC, old_payloads, payloads[|durable|], room);
    RecordsMore(EPOCH_MAGIC, old_payloads, payloads[|durable|]);
    var all := JournalBytes(codec, epochs);
    assert all[..cut] == JournalHeader() + Records(EPOCH_MAGIC, payloads)[..room];
    JournalHeaderIsRead(codec, all[..cut]);
    var m := Whole(payloads, room);
    assert [] + epochs[..m] == epochs[..m];
    assert epochs[..|durable|] == durable && epochs[..|epochs|] == epochs;
    assert payloads[..|durable|] == old_payloads && payloads[..|payloads|] == payloads;
  }

  /** Whatever lies behind a journal: it reads as the journal's epochs and what is found there, or not at all. */
  lemma JournalAndDebris<I(!new)>(codec: Codec<I>, epochs: seq<seq<I>>, debris: seq<byte>)
    requires ReadsBack(codec) && Recoverable(codec, epochs)
    ensures ReadJournal(codec, JournalBytes(codec, epochs) + debris)
         == Some(Shifted(ScanFrom(EPOCH_MAGIC, AcceptEpoch(codec), debris, epochs, 0), |JournalBytes(codec, epochs)|))
  {
    hide ScanFrom, Records, ReadJournal, JournalHeader, EpochPayload, ReadsBack, Recoverable, Accepted, EpochPayloads;
    var payloads, journal := EpochPayloads(codec, epochs), JournalBytes(codec, epochs);
    JournalHeaderIsRead(codec, journal + debris);
    EpochsAreAccepted(codec, epochs);
    ScanPast(EPOCH_MAGIC, AcceptEpoch(codec), JournalHeader(), [], epochs, payloads, debris);
    assert [] + epochs == epochs;
    ScanBehind(EPOCH_MAGIC, AcceptEpoch(codec), journal, debris, epochs, 0);
  }

  lemma PayloadsOfMore<I>(codec: Codec<I>, durable: seq<seq<I>>, next: seq<I>)
    ensures EpochPayloads(codec, durable + [next]) == EpochPayloads(codec, durable) + [EpochPayload(codec, |durable| + 1, next)]
  {
    hide EpochPayload;
  }

  lemma {:induction false} LastRecord(magic: seq<byte>, payloads: seq<seq<byte>>, last: seq<byte>, room: nat)
    requires |magic| == 4
    requires |Records(magic, payloads)| <= room <= |Records(magic, payloads + [last])|
    ensures Whole(payloads + [last], room) == if room == |Records(magic, payloads + [last])| then |payloads| + 1 else |payloads|
    decreases |payloads|
  {
    hide Record;
    if payloads == [] {
      assert payloads + [last] == [last] && [last][1..] == [];
    } else {
      assert (payloads + [last])[1..] == payloads[1..] + [last];
      var first := |Record(magic, payloads[0])|;
      LastRecord(magic, payloads[1..], last, room - first);
    }
  }

  lemma JournalGrows<I>(codec: Codec<I>, durable: seq<seq<I>>, next: seq<I>)
    ensures JournalBytes(codec, durable + [next])
         == JournalBytes(codec, durable) + Record(EPOCH_MAGIC, EpochPayload(codec, |durable| + 1, next))
  {
    hide Record, EpochPayload, JournalHeader, Records, Whole, EpochPayloads;
    var payloads := EpochPayloads(codec, durable);
    var last := EpochPayload(codec, |durable| + 1, next);
    PayloadsOfMore(codec, durable, next);
    RecordsMore(EPOCH_MAGIC, payloads, last);
  }

  lemma {:induction false} RecordsMore(magic: seq<byte>, payloads: seq<seq<byte>>, last: seq<byte>)
    requires |magic| == 4
    ensures Records(magic, payloads + [last]) == Records(magic, payloads) + Record(magic, last)
    decreases |payloads|
  {
    hide Record;
    if payloads == [] {
      assert payloads + [last] == [last] && [last][1..] == [];
    } else {
      assert (payloads + [last])[1..] == payloads[1..] + [last];
      RecordsMore(magic, payloads[1..], last);
    }
  }
}
