/** The record framing that the commit log and the admission journal share: magic, length, checksum, payload
    and a completion trailer. A crash may leave any prefix; a reader keeps the records that are whole. */
module Framing {
  import opened Words
  import opened Facts

  const PREFIX_LEN: nat := 20
  const TRAILER_LEN: nat := 4
  const MAX_PAYLOAD: nat := 64 * 1024 * 1024

  // "END1"
  const TRAILER: seq<byte> := [0x45, 0x4E, 0x44, 0x31]

  function Record(magic: seq<byte>, payload: seq<byte>): (r: seq<byte>)
    requires |magic| == 4
    ensures |r| == PREFIX_LEN + |payload| + TRAILER_LEN
  {
    magic + LittleEndian(|payload|, 8) + LittleEndian(Digest(payload), 8) + payload + TRAILER
  }

  function Records(magic: seq<byte>, payloads: seq<seq<byte>>): seq<byte>
    requires |magic| == 4
  {
    if payloads == [] then [] else Record(magic, payloads[0]) + Records(magic, payloads[1..])
  }

  datatype Scan<T> = Scan(items: seq<T>, offset: nat) | Corrupt(offset: nat)

  /** What a reader makes of a record's payload, given the items before it. */
  type Acceptor<!T> = (seq<T>, seq<byte>) -> Option<T>

  /** Read records from `offset` on. An incomplete last record is dropped; anything else that is not a valid
      record is corruption. */
  function ScanFrom<T>(magic: seq<byte>, accept: Acceptor<T>, bytes: seq<byte>, items: seq<T>, offset: nat): Scan<T>
    requires |magic| == 4 && offset <= |bytes|
    decreases |bytes| - offset
  {
    if |bytes| - offset < PREFIX_LEN then Scan(items, offset)
    else if bytes[offset..offset + 4] != magic then Corrupt(offset)
    else
      var n := FromLittleEndian(bytes[offset + 4..offset + 12]);
      if n > MAX_PAYLOAD then Corrupt(offset)
      else
        var end := offset + PREFIX_LEN + n + TRAILER_LEN;
        if |bytes| < end then Scan(items, offset)
        else if bytes[end - TRAILER_LEN..end] != TRAILER then Corrupt(offset)
        else
          var payload := bytes[offset + PREFIX_LEN..end - TRAILER_LEN];
          if Digest(payload) != FromLittleEndian(bytes[offset + 12..offset + 20]) then Corrupt(offset)
          else match accept(items, payload)
            case None => Corrupt(offset)
            case Some(item) => ScanFrom(magic, accept, bytes, items + [item], end)
  }

  datatype Found = Incomplete | Malformed | Payload(payload: seq<byte>)

  /** What the reader finds at an offset, before it asks the acceptor. */
  function Find(magic: seq<byte>, bytes: seq<byte>, offset: nat): Found
    requires |magic| == 4 && offset <= |bytes|
  {
    if |bytes| - offset < PREFIX_LEN then Incomplete
    else
      var n := FromLittleEndian(bytes[offset + 4..offset + 12]);
      var end := offset + PREFIX_LEN + n + TRAILER_LEN;
      if bytes[offset..offset + 4] != magic || n > MAX_PAYLOAD then Malformed
      else if |bytes| < end then Incomplete
      else
        var payload := bytes[offset + PREFIX_LEN..end - TRAILER_LEN];
        if bytes[end - TRAILER_LEN..end] != TRAILER || Digest(payload) != FromLittleEndian(bytes[offset + 12..offset + 20]) then Malformed
        else Payload(payload)
  }

  lemma ScanFinds<T>(magic: seq<byte>, accept: Acceptor<T>, bytes: seq<byte>, items: seq<T>, offset: nat)
    requires |magic| == 4 && offset <= |bytes|
    ensures match Find(magic, bytes, offset)
      case Incomplete => ScanFrom(magic, accept, bytes, items, offset) == Scan(items, offset)
      case Malformed => ScanFrom(magic, accept, bytes, items, offset) == Corrupt(offset)
      case Payload(payload) =>
        var end := offset + PREFIX_LEN + |payload| + TRAILER_LEN;
        && end <= |bytes|
        && ScanFrom(magic, accept, bytes, items, offset)
           == match accept(items, payload)
              case None => Corrupt(offset)
              case Some(item) => ScanFrom(magic, accept, bytes, items + [item], end)
  {
    hide FromLittleEndian, Digest;
  }

  method ScanRecords<T>(magic: seq<byte>, accept: Acceptor<T>, bytes: seq<byte>, start: nat) returns (scan: Scan<T>)
    requires |magic| == 4 && start <= |bytes|
    ensures scan == ScanFrom(magic, accept, bytes, [], start)
  {
    hide ScanFrom, FromLittleEndian;
    var items: seq<T> := [];
    var offset := start;
    while offset < |bytes|
      invariant offset <= |bytes|
      invariant ScanFrom(magic, accept, bytes, items, offset) == ScanFrom(magic, accept, bytes, [], start)
    {
      ScanFinds(magic, accept, bytes, items, offset);
      if |bytes| - offset < PREFIX_LEN {
        break;
      }
      if bytes[offset..offset + 4] != magic {
        return Corrupt(offset);
      }
      var n := FromLittleEndian(bytes[offset + 4..offset + 12]);
      if n > MAX_PAYLOAD {
        return Corrupt(offset);
      }
      var end := offset + PREFIX_LEN + n + TRAILER_LEN;
      if |bytes| < end {
        break;
      }
      if bytes[end - TRAILER_LEN..end] != TRAILER {
        return Corrupt(offset);
      }
      var payload := bytes[offset + PREFIX_LEN..end - TRAILER_LEN];
      var actual := ExtendDigest(FNV_OFFSET_BASIS, payload);
      if actual != FromLittleEndian(bytes[offset + 12..offset + 20]) {
        return Corrupt(offset);
      }
      match accept(items, payload) {
        case None => return Corrupt(offset);
        case Some(item) =>
          items := items + [item];
          offset := end;
      }
    }
    ScanFinds(magic, accept, bytes, items, offset);
    scan := Scan(items, offset);
  }

  // ---- Cutting a file ----

  /** How many of the records fit whole in `room` bytes. */
  function Whole(payloads: seq<seq<byte>>, room: nat): (m: nat)
    ensures m <= |payloads|
  {
    if payloads == [] || room < PREFIX_LEN + |payloads[0]| + TRAILER_LEN then 0
    else 1 + Whole(payloads[1..], room - PREFIX_LEN - |payloads[0]| - TRAILER_LEN)
  }

  lemma {:induction false} WholeIsLargest(magic: seq<byte>, payloads: seq<seq<byte>>, room: nat)
    requires |magic| == 4
    ensures var m := Whole(payloads, room);
      && |Records(magic, payloads[..m])| <= room
      && (m < |payloads| ==> |Records(magic, payloads[..m + 1])| > room)
    decreases |payloads|
  {
    if payloads != [] && room >= |Record(magic, payloads[0])| {
      WholeIsLargest(magic, payloads[1..], room - |Record(magic, payloads[0])|);
      var m := Whole(payloads, room);
      assert payloads[..m] == [payloads[0]] + payloads[1..][..m - 1];
      if m < |payloads| {
        assert payloads[..m + 1] == [payloads[0]] + payloads[1..][..m];
      }
    } else if payloads != [] {
      assert payloads[..1] == [payloads[0]] + [];
      assert payloads[..1][1..] == [];
    }
  }

  /** The acceptor takes these payloads, one after the other, and returns these items. */
  ghost predicate Accepted<T>(accept: Acceptor<T>, before: seq<T>, items: seq<T>, payloads: seq<seq<byte>>) {
    && |items| == |payloads|
    && forall i :: 0 <= i < |items| ==> |payloads[i]| <= MAX_PAYLOAD && accept(before + items[..i], payloads[i]) == Some(items[i])
  }

  lemma AcceptedTail<T>(accept: Acceptor<T>, before: seq<T>, items: seq<T>, payloads: seq<seq<byte>>)
    requires items != [] && Accepted(accept, before, items, payloads)
    ensures accept(before, payloads[0]) == Some(items[0])
    ensures Accepted(accept, before + [items[0]], items[1..], payloads[1..])
  {
    assert before + items[..0] == before;
    forall i | 0 <= i < |items[1..]|
      ensures |payloads[1..][i]| <= MAX_PAYLOAD
      ensures accept(before + [items[0]] + items[1..][..i], payloads[1..][i]) == Some(items[1..][i])
    {
      assert before + [items[0]] + items[1..][..i] == before + items[..i + 1];
    }
  }

  lemma RecordParts(magic: seq<byte>, payload: seq<byte>)
    requires |magic| == 4 && |payload| <= MAX_PAYLOAD
    ensures var r := Record(magic, payload);
      && r[..4] == magic && FromLittleEndian(r[4..12]) == |payload|
      && FromLittleEndian(r[12..20]) == Digest(payload)
      && r[20..20 + |payload|] == payload && r[20 + |payload|..] == TRAILER
  {
    hide LittleEndian, FromLittleEndian, Pow256, DigestExtend;
    var r := Record(magic, payload);
    WordWidths();
    assert |payload| < U64;
    DigestIsWord(FNV_OFFSET_BASIS, payload);
    LittleEndianRoundTrip(|payload|, 8);
    LittleEndianRoundTrip(Digest(payload), 8);
    assert r[4..12] == LittleEndian(|payload|, 8);
    assert r[12..20] == LittleEndian(Digest(payload), 8);
  }

  /** A record that is cut short anywhere is dropped without an error. */
  lemma CutRecord<T>(magic: seq<byte>, accept: Acceptor<T>, bytes: seq<byte>, items: seq<T>, offset: nat,
                     payload: seq<byte>)
    requires |magic| == 4 && |payload| <= MAX_PAYLOAD && offset <= |bytes|
    requires bytes[offset..] <= Record(magic, payload) && |bytes| - offset < |Record(magic, payload)|
    ensures ScanFrom(magic, accept, bytes, items, offset) == Scan(items, offset)
  {
    hide Record, FromLittleEndian;
    var r, tail := Record(magic, payload), bytes[offset..];
    RecordParts(magic, payload);
    if |tail| >= PREFIX_LEN {
      assert bytes[offset..offset + 4] == tail[..4] == r[..4];
      assert bytes[offset + 4..offset + 12] == tail[4..12] == r[4..12];
    }
  }

  lemma RecordInFile(magic: seq<byte>, bytes: seq<byte>, offset: nat, payload: seq<byte>)
    requires |magic| == 4 && |payload| <= MAX_PAYLOAD && offset <= |bytes|
    requires Record(magic, payload) <= bytes[offset..]
    ensures var end := offset + |Record(magic, payload)|;
      && end <= |bytes|
      && bytes[offset..offset + 4] == magic
      && FromLittleEndian(bytes[offset + 4..offset + 12]) == |payload|
      && FromLittleEndian(bytes[offset + 12..offset + 20]) == Digest(payload)
      && bytes[offset + PREFIX_LEN..end - TRAILER_LEN] == payload
      && bytes[end - TRAILER_LEN..end] == TRAILER
  {
    hide Record, FromLittleEndian, Digest;
    var r, tail := Record(magic, payload), bytes[offset..];
    RecordParts(magic, payload);
    assert tail[..|r|] == r;
    var end := offset + |r|;
    assert bytes[offset..offset + 4] == r[..4];
    assert bytes[offset + 4..offset + 12] == r[4..12];
    assert bytes[offset + 12..offset + 20] == r[12..20];
    assert bytes[offset + 20..end - 4] == r[20..20 + |payload|];
    assert bytes[end - 4..end] == r[20 + |payload|..];
  }

  /** A whole record is handed to the acceptor: the scan goes on behind it, or stops with an error. */
  lemma WholeRecord<T>(magic: seq<byte>, accept: Acceptor<T>, bytes: seq<byte>, items: seq<T>, offset: nat,
                       payload: seq<byte>)
    requires |magic| == 4 && |payload| <= MAX_PAYLOAD && offset <= |bytes|
    requires Record(magic, payload) <= bytes[offset..]
    ensures offset + |Record(magic, payload)| <= |bytes|
    ensures ScanFrom(magic, accept, bytes, items, offset)
         == match accept(items, payload)
            case None => Corrupt(offset)
            case Some(item) => ScanFrom(magic, accept, bytes, items + [item], offset + |Record(magic, payload)|)
  {
    hide Record, FromLittleEndian, Digest;
    RecordInFile(magic, bytes, offset, payload);
  }

  /** Cutting a file of accepted records anywhere past its header leaves exactly the records that fit whole. */
  lemma {:induction false} CutScan<T>(magic: seq<byte>, accept: Acceptor<T>, front: seq<byte>, before: seq<T>,
                                      items: seq<T>,
                                      payloads: seq<seq<byte>>, room: nat)
    requires |magic| == 4 && Accepted(accept, before, items, payloads)
    requires room <= |Records(magic, payloads)|
    ensures var m := Whole(payloads, room);
      ScanFrom(magic, accept, front + Records(magic, payloads)[..room], before, |front|)
      == Scan(before + items[..m], |front| + |Records(magic, payloads[..m])|)
    decreases |payloads|
  {
    hide ScanFrom, Record;
    var all := Records(magic, payloads);
    var bytes := front + all[..room];
    var m := Whole(payloads, room);
    assert bytes[|front|..] == all[..room];
    if payloads == [] {
      assert before + items[..0] == before;
      NothingLeft(magic, accept, bytes, before, |front|);
    } else {
      var payload, item := payloads[0], items[0];
      var r := Record(magic, payload);
      AcceptedTail(accept, before, items, payloads);
      assert |payload| <= MAX_PAYLOAD;
      if room < |r| {
        assert all[..room] == r[..room];
        CutRecord(magic, accept, bytes, before, |front|, payload);
        assert before + items[..0] == before && payloads[..0] == [];
      } else {
        var later := Records(magic, payloads[1..]);
        assert all[..room] == r + later[..room - |r|];
        WholeRecord(magic, accept, bytes, before, |front|, payload);
        assert bytes == (front + r) + later[..room - |r|];
        CutScan(magic, accept, front + r, before + [item], items[1..], payloads[1..], room - |r|);
        assert before + items[..m] == before + [item] + items[1..][..m - 1];
        assert payloads[..m][1..] == payloads[1..][..m - 1];
      }
    }
  }

  lemma NothingLeft<T>(magic: seq<byte>, accept: Acceptor<T>, bytes: seq<byte>, items: seq<T>, offset: nat)
    requires |magic| == 4 && offset == |bytes|
    ensures ScanFrom(magic, accept, bytes, items, offset) == Scan(items, offset)
  {
  }

  // ---- Scanning past what is known ----

  function Shifted<T>(scan: Scan<T>, base: nat): Scan<T> {
    match scan
    case Scan(items, offset) => Scan(items, offset + base)
    case Corrupt(offset) => Corrupt(offset + base)
  }

  lemma SliceBehind(front: seq<byte>, rest: seq<byte>, from: nat, to: nat)
    requires from <= to <= |rest|
    ensures (front + rest)[|front| + from..|front| + to] == rest[from..to]
  {
  }

  lemma FindBehind(magic: seq<byte>, front: seq<byte>, rest: seq<byte>, offset: nat)
    requires |magic| == 4 && offset <= |rest|
    ensures Find(magic, front + rest, |front| + offset) == Find(magic, rest, offset)
  {
    hide FromLittleEndian, Digest;
    if |rest| - offset >= PREFIX_LEN {
      SliceBehind(front, rest, offset, offset + 4);
      SliceBehind(front, rest, offset + 4, offset + 12);
      SliceBehind(front, rest, offset + 12, offset + 20);
      var end := offset + PREFIX_LEN + FromLittleEndian(rest[offset + 4..offset + 12]) + TRAILER_LEN;
      if end <= |rest| {
        SliceBehind(front, rest, end - TRAILER_LEN, end);
        SliceBehind(front, rest, offset + PREFIX_LEN, end - TRAILER_LEN);
      }
    }
  }

  /** A scan sees only what lies behind the place where it starts. */
  lemma {:induction false} ScanBehind<T>(magic: seq<byte>, accept: Acceptor<T>, front: seq<byte>, rest: seq<byte>,
                                         items: seq<T>, offset: nat)
    requires |magic| == 4 && offset <= |rest|
    ensures ScanFrom(magic, accept, front + rest, items, |front| + offset) == Shifted(ScanFrom(magic, accept, rest, items, offset), |front|)
    decreases |rest| - offset
  {
    hide ScanFrom, Find;
    FindBehind(magic, front, rest, offset);
    ScanFinds(magic, accept, rest, items, offset);
    ScanFinds(magic, accept, front + rest, items, |front| + offset);
    var found := Find(magic, rest, offset);
    if found.Payload? && accept(items, found.payload).Some? {
      ScanBehind(magic, accept, front, rest, items + [accept(items, found.payload).value],
                 offset + PREFIX_LEN + |found.payload| + TRAILER_LEN);
    }
  }

  lemma AcceptedLengths<T>(accept: Acceptor<T>, before: seq<T>, items: seq<T>, payloads: seq<seq<byte>>)
    requires Accepted(accept, before, items, payloads)
    ensures |items| == |payloads| && (payloads != [] ==> |payloads[0]| <= MAX_PAYLOAD)
  {
  }

  /** Accepted records are read, and the scan goes on behind them with whatever is there. */
  lemma {:induction false} ScanPast<T>(magic: seq<byte>, accept: Acceptor<T>, front: seq<byte>, before: seq<T>,
                                       items: seq<T>,
                                       payloads: seq<seq<byte>>, rest: seq<byte>)
    requires |magic| == 4 && Accepted(accept, before, items, payloads)
    ensures var bytes := front + Records(magic, payloads) + rest;
      ScanFrom(magic, accept, bytes, before, |front|)
      == ScanFrom(magic, accept, bytes, before + items, |front + Records(magic, payloads)|)
    decreases |payloads|
  {
    hide ScanFrom, Record, Accepted;
    if payloads == [] {
      AcceptedLengths(accept, before, items, payloads);
      assert before + items == before;
    } else {
      var r, later := Record(magic, payloads[0]), Records(magic, payloads[1..]);
      var bytes := front + Records(magic, payloads) + rest;
      AcceptedLengths(accept, before, items, payloads);
      AcceptedTail(accept, before, items, payloads);
      assert bytes == (front + r) + later + rest;
      assert bytes[|front|..] == r + (later + rest);
      WholeRecord(magic, accept, bytes, before, |front|, payloads[0]);
      ScanPast(magic, accept, front + r, before + [items[0]], items[1..], payloads[1..], rest);
      assert before + [items[0]] + items[1..] == before + items;
      assert |(front + r) + later| == |front + Records(magic, payloads)|;
    }
  }

  // ---- What was read is what is there ----

  lemma PartsMakeRecord(magic: seq<byte>, r: seq<byte>, payload: seq<byte>)
    requires |magic| == 4 && |r| == PREFIX_LEN + |payload| + TRAILER_LEN
    requires r[..4] == magic && FromLittleEndian(r[4..12]) == |payload|
    requires FromLittleEndian(r[12..20]) == Digest(payload)
    requires r[20..20 + |payload|] == payload && r[20 + |payload|..] == TRAILER
    ensures r == Record(magic, payload)
  {
    FromLittleEndianRoundTrip(r[4..12]);
    FromLittleEndianRoundTrip(r[12..20]);
    assert r == r[..4] + r[4..12] + r[12..20] + r[20..20 + |payload|] + r[20 + |payload|..];
  }

  /** What a crash inside a write may leave behind the last whole record: fewer bytes than a prefix, or a sound prefix
      and not all of the rest. */
  ghost predicate Unfinished(magic: seq<byte>, rest: seq<byte>) {
    |rest| < PREFIX_LEN
    || (rest[..4] == magic && FromLittleEndian(rest[4..12]) <= MAX_PAYLOAD
        && |rest| < PREFIX_LEN + FromLittleEndian(rest[4..12]) + TRAILER_LEN)
  }

  /** The bytes are neither that nor the record of a payload that is accepted next. */
  ghost predicate Damaged<T>(magic: seq<byte>, accept: Acceptor<T>, items: seq<T>, rest: seq<byte>)
    requires |magic| == 4
  {
    && !Unfinished(magic, rest)
    && forall payload :: |payload| <= MAX_PAYLOAD && Record(magic, payload) <= rest ==> accept(items, payload).None?
  }

  lemma FindsUnfinished(magic: seq<byte>, bytes: seq<byte>, offset: nat)
    requires |magic| == 4 && offset <= |bytes|
    ensures Find(magic, bytes, offset).Incomplete? <==> Unfinished(magic, bytes[offset..])
  {
    hide FromLittleEndian, Digest;
    var rest := bytes[offset..];
    if |rest| >= PREFIX_LEN {
      assert rest[..4] == bytes[offset..offset + 4] && rest[4..12] == bytes[offset + 4..offset + 12];
    }
  }

  lemma FindsRecord(magic: seq<byte>, bytes: seq<byte>, offset: nat)
    requires |magic| == 4 && offset <= |bytes| && Find(magic, bytes, offset).Payload?
    ensures var payload := Find(magic, bytes, offset).payload;
      var end := offset + |Record(magic, payload)|;
      |payload| <= MAX_PAYLOAD && end <= |bytes| && bytes[offset..end] == Record(magic, payload)
  {
    hide FromLittleEndian, Digest, Record;
    var payload := Find(magic, bytes, offset).payload;
    var end := offset + PREFIX_LEN + |payload| + TRAILER_LEN;
    var r := bytes[offset..end];
    assert r[..4] == bytes[offset..offset + 4];
    assert r[4..12] == bytes[offset + 4..offset + 12];
    assert r[12..20] == bytes[offset + 12..offset + 20];
    assert r[20..20 + |payload|] == payload;
    assert r[20 + |payload|..] == bytes[end - TRAILER_LEN..end];
    PartsMakeRecord(magic, r, payload);
  }

  lemma RecordIsFound(magic: seq<byte>, bytes: seq<byte>, offset: nat, payload: seq<byte>)
    requires |magic| == 4 && offset <= |bytes|
    requires |payload| <= MAX_PAYLOAD && Record(magic, payload) <= bytes[offset..]
    ensures Find(magic, bytes, offset) == Payload(payload)
  {
    hide Record, FromLittleEndian, Digest;
    RecordInFile(magic, bytes, offset, payload);
  }

  lemma FindsDamage<T>(magic: seq<byte>, accept: Acceptor<T>, bytes: seq<byte>, items: seq<T>, offset: nat)
    requires |magic| == 4 && offset <= |bytes|
    requires var found := Find(magic, bytes, offset);
      found.Malformed? || (found.Payload? && accept(items, found.payload).None?)
    ensures Damaged(magic, accept, items, bytes[offset..])
  {
    hide Find, Record, Unfinished;
    FindsUnfinished(magic, bytes, offset);
    forall payload | |payload| <= MAX_PAYLOAD && Record(magic, payload) <= bytes[offset..]
      ensures accept(items, payload).None?
    {
      RecordIsFound(magic, bytes, offset, payload);
    }
  }

  /** A scan reads whole records that the acceptor takes, and it stops at the first place where there is none: there
      the bytes are unfinished, or they are damaged and the scan reports it. */
  lemma {:induction false} ScanStops<T>(magic: seq<byte>, accept: Acceptor<T>, bytes: seq<byte>, before: seq<T>,
                                        offset: nat)
    returns (items: seq<T>, payloads: seq<seq<byte>>)
    requires |magic| == 4 && offset <= |bytes|
    ensures var scan := ScanFrom(magic, accept, bytes, before, offset);
      && Accepted(accept, before, items, payloads)
      && offset <= scan.offset <= |bytes| && bytes[offset..scan.offset] == Records(magic, payloads)
      && (scan.Scan? ==> scan.items == before + items && Unfinished(magic, bytes[scan.offset..]))
      && (scan.Corrupt? ==> Damaged(magic, accept, before + items, bytes[scan.offset..]))
    decreases |bytes| - offset
  {
    hide ScanFrom, Record, Accepted, Find, Unfinished, Damaged;
    var scan, found := ScanFrom(magic, accept, bytes, before, offset), Find(magic, bytes, offset);
    ScanFinds(magic, accept, bytes, before, offset);
    if found.Payload? && accept(before, found.payload).Some? {
      FindsRecord(magic, bytes, offset);
      var item, next := accept(before, found.payload).value, offset + |Record(magic, found.payload)|;
      var laterItems, laterPayloads := ScanStops(magic, accept, bytes, before + [item], next);
      items, payloads := [item] + laterItems, [found.payload] + laterPayloads;
      AcceptedCons(accept, before, item, found.payload, laterItems, laterPayloads);
      assert before + [item] + laterItems == before + items;
      assert bytes[offset..scan.offset] == bytes[offset..next] + bytes[next..scan.offset];
      assert payloads[1..] == laterPayloads;
    } else {
      items, payloads := [], [];
      assert before + [] == before;
      AcceptedNothing(accept, before);
      FindsUnfinished(magic, bytes, offset);
      if !found.Incomplete? {
        FindsDamage(magic, accept, bytes, before, offset);
      }
    }
  }

  /** A successful scan read exactly the records of the items it returns: writing them again gives the same bytes. */
  lemma ScanCanonical<T>(magic: seq<byte>, accept: Acceptor<T>, bytes: seq<byte>, before: seq<T>, offset: nat)
    returns (items: seq<T>, payloads: seq<seq<byte>>)
    requires |magic| == 4 && offset <= |bytes|
    requires ScanFrom(magic, accept, bytes, before, offset).Scan?
    ensures var scan := ScanFrom(magic, accept, bytes, before, offset);
      && scan.items == before + items && Accepted(accept, before, items, payloads)
      && offset <= scan.offset <= |bytes| && bytes[offset..scan.offset] == Records(magic, payloads)
  {
    items, payloads := ScanStops(magic, accept, bytes, before, offset);
  }

  lemma AcceptedNothing<T>(accept: Acceptor<T>, before: seq<T>)
    ensures Accepted(accept, before, [], [])
  {
  }

  lemma AcceptedCons<T>(accept: Acceptor<T>, before: seq<T>, item: T, payload: seq<byte>, items: seq<T>,
                        payloads: seq<seq<byte>>)
    requires |payload| <= MAX_PAYLOAD && accept(before, payload) == Some(item)
    requires Accepted(accept, before + [item], items, payloads)
    ensures Accepted(accept, before, [item] + items, [payload] + payloads)
  {
    var allItems, allPayloads := [item] + items, [payload] + payloads;
    forall i | 0 <= i < |allItems|
      ensures |allPayloads[i]| <= MAX_PAYLOAD && accept(before + allItems[..i], allPayloads[i]) == Some(allItems[i])
    {
      if i == 0 {
        assert before + allItems[..0] == before;
      } else {
        assert before + allItems[..i] == before + [item] + items[..i - 1];
        assert allPayloads[i] == payloads[i - 1];
      }
    }
  }
}
