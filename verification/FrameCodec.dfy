/** The payload of a stored commit frame: little-endian words, length-prefixed UTF-8 strings, tagged atoms
    and operations. The decoder is the exact inverse of the encoder, in both directions. Lengths and counts take
    `width` bytes: eight in the stores, four in a snapshot. */
module FrameCodec {
  import opened Words
  import opened Facts
  import opened Commits

  const MAX_OPERATIONS_PER_FRAME: nat := 1_000_000

  // ---- UTF-8 (RFC 3629, section 4) ----

  predicate IsTail(b: byte) { 0x80 <= b <= 0xBF }

  /** The length of the well-formed character at the front, or 0. */
  function CharacterLength(s: seq<byte>): (n: nat)
    requires s != []
    ensures n <= |s|
  {
    var b := s[0];
    if b <= 0x7F then 1
    else if 0xC2 <= b <= 0xDF && |s| >= 2 && IsTail(s[1]) then 2
    else if |s| >= 3 && IsTail(s[2])
         && ((b == 0xE0 && 0xA0 <= s[1] <= 0xBF) || (0xE1 <= b <= 0xEC && IsTail(s[1]))
             || (b == 0xED && 0x80 <= s[1] <= 0x9F) || (0xEE <= b <= 0xEF && IsTail(s[1]))) then 3
    else if |s| >= 4 && IsTail(s[2]) && IsTail(s[3])
         && ((b == 0xF0 && 0x90 <= s[1] <= 0xBF) || (0xF1 <= b <= 0xF3 && IsTail(s[1])) || (b == 0xF4 && 0x80 <= s[1] <= 0x8F)) then 4
    else 0
  }

  predicate ValidUtf8(s: seq<byte>)
    decreases |s|
  {
    s == [] || (CharacterLength(s) > 0 && ValidUtf8(s[CharacterLength(s)..]))
  }

  // ---- What can be stored ----

  predicate StorableText(text: Name, width: nat := 8) { |text| < Pow256(width) && ValidUtf8(text) }

  predicate StorableAtom(atom: Atom, width: nat := 8) {
    match atom
    case Entity(id) => id < U64
    case Literal(text) => StorableText(text, width)
  }

  predicate StorableOperation(op: Operation, width: nat := 8) {
    match op
    case AllocateEntity(entity) => entity < U64
    case Define(slot, fact) =>
      && StorableText(slot, width) && StorableAtom(fact.subject, width)
      && StorableText(fact.relation, width) && StorableAtom(fact.target, width)
    case Forget(slot) => StorableText(slot, width)
  }

  /** Every field is in the range of its type. */
  predicate Storable(f: CommitFrame, width: nat := 8) {
    && f.parentWorld < U64 && f.resultingWorld < U64 && f.parentVersion < U64 && f.resultingVersion < U64
    && f.resultingAllocator < U64 && |f.operations| < Pow256(width)
    && forall i :: 0 <= i < |f.operations| ==> StorableOperation(f.operations[i], width)
  }

  // ---- Encoding ----

  function EncodeU64(value: nat): (r: seq<byte>)
    ensures |r| == 8
  {
    LittleEndian(value, 8)
  }

  function EncodeText(text: Name, width: nat := 8): seq<byte> { LittleEndian(|text|, width) + text }

  function EncodeAtom(atom: Atom, width: nat := 8): seq<byte> {
    match atom
    case Entity(id) => [0] + EncodeU64(id)
    case Literal(text) => [1] + EncodeText(text, width)
  }

  function EncodeDefine(slot: Name, fact: Fact, width: nat := 8): seq<byte> {
    EncodeText(slot, width) + (EncodeAtom(fact.subject, width) + (EncodeText(fact.relation, width) + EncodeAtom(fact.target, width)))
  }

  function EncodeOperation(op: Operation, width: nat := 8): seq<byte> {
    match op
    case AllocateEntity(entity) => [0] + EncodeU64(entity)
    case Define(slot, fact) => [1] + EncodeDefine(slot, fact, width)
    case Forget(slot) => [2] + EncodeText(slot, width)
  }

  function EncodeOperations(ops: seq<Operation>, width: nat := 8): seq<byte> {
    if ops == [] then [] else EncodeOperation(ops[0], width) + EncodeOperations(ops[1..], width)
  }

  datatype Header = Header(parentWorld: nat, resultingWorld: nat, parentVersion: nat, resultingVersion: nat,
                           resultingAllocator: nat, operationCount: nat)

  function HeaderOf(f: CommitFrame): Header {
    Header(f.parentWorld, f.resultingWorld, f.parentVersion, f.resultingVersion, f.resultingAllocator, |f.operations|)
  }

  function EncodeHeader(h: Header, width: nat := 8): (r: seq<byte>)
    ensures |r| == 40 + width
  {
    EncodeU64(h.parentWorld) + EncodeU64(h.resultingWorld) + EncodeU64(h.parentVersion) + EncodeU64(h.resultingVersion)
      + EncodeU64(h.resultingAllocator) + LittleEndian(h.operationCount, width)
  }

  function EncodePayload(f: CommitFrame): seq<byte> {
    EncodeHeader(HeaderOf(f)) + EncodeOperations(f.operations)
  }

  // ---- Decoding, from the front of the remaining bytes ----

  datatype Parse<+T> = Bad | Got(value: T, rest: seq<byte>)

  function ParseWord(n: nat, s: seq<byte>): Parse<nat> {
    if |s| < n then Bad else Got(FromLittleEndian(s[..n]), s[n..])
  }

  function ParseU64(s: seq<byte>): Parse<nat> { ParseWord(8, s) }

  function ParseText(s: seq<byte>, width: nat := 8): Parse<Name> {
    match ParseWord(width, s)
    case Bad => Bad
    case Got(n, rest) => if |rest| < n || !ValidUtf8(rest[..n]) then Bad else Got(rest[..n], rest[n..])
  }

  function ParseAtom(s: seq<byte>, width: nat := 8): Parse<Atom> {
    if s == [] then Bad
    else if s[0] == 0 then match ParseU64(s[1..]) case Bad => Bad case Got(id, rest) => Got(Entity(id), rest)
    else if s[0] == 1 then match ParseText(s[1..], width) case Bad => Bad case Got(text, rest) => Got(Literal(text), rest)
    else Bad
  }

  function ParseDefine(s: seq<byte>, width: nat := 8): Parse<Operation> {
    match ParseText(s, width)
    case Bad => Bad
    case Got(slot, s1) =>
      match ParseAtom(s1, width)
      case Bad => Bad
      case Got(subject, s2) =>
        match ParseText(s2, width)
        case Bad => Bad
        case Got(relation, s3) =>
          match ParseAtom(s3, width)
          case Bad => Bad
          case Got(target, s4) => Got(Define(slot, Fact(subject, relation, target)), s4)
  }

  function ParseOperation(s: seq<byte>, width: nat := 8): Parse<Operation> {
    if s == [] then Bad
    else if s[0] == 0 then match ParseU64(s[1..]) case Bad => Bad case Got(entity, rest) => Got(AllocateEntity(entity), rest)
    else if s[0] == 1 then ParseDefine(s[1..], width)
    else if s[0] == 2 then match ParseText(s[1..], width) case Bad => Bad case Got(slot, rest) => Got(Forget(slot), rest)
    else Bad
  }

  function ParseOperations(n: nat, s: seq<byte>, width: nat := 8): Parse<seq<Operation>> {
    if n == 0 then Got([], s)
    else match ParseOperation(s, width)
      case Bad => Bad
      case Got(op, s1) =>
        match ParseOperations(n - 1, s1, width)
        case Bad => Bad
        case Got(ops, s2) => Got([op] + ops, s2)
  }

  function ParseHeader(s: seq<byte>, width: nat := 8): Parse<Header> {
    if |s| < 40 + width then Bad
    else Got(Header(FromLittleEndian(s[..8]), FromLittleEndian(s[8..16]), FromLittleEndian(s[16..24]),
                    FromLittleEndian(s[24..32]), FromLittleEndian(s[32..40]), FromLittleEndian(s[40..40 + width])), s[40 + width..])
  }

  function DecodePayload(payload: seq<byte>): Option<CommitFrame> {
    match ParseHeader(payload)
    case Bad => None
    case Got(h, s) =>
      if h.operationCount > MAX_OPERATIONS_PER_FRAME then None
      else match ParseOperations(h.operationCount, s)
        case Bad => None
        case Got(ops, rest) =>
          if rest != [] then None
          else Some(CommitFrame(h.parentWorld, h.resultingWorld, h.parentVersion, h.resultingVersion, h.resultingAllocator, ops))
  }

  // ---- Decoding what was encoded ----

  lemma ParseWordRoundTrip(value: nat, n: nat, rest: seq<byte>)
    requires value < Pow256(n)
    ensures ParseWord(n, LittleEndian(value, n) + rest) == Got(value, rest)
  {
    LittleEndianRoundTrip(value, n);
    assert (LittleEndian(value, n) + rest)[..n] == LittleEndian(value, n);
  }

  lemma ParseU64RoundTrip(value: nat, rest: seq<byte>)
    requires value < U64
    ensures ParseU64(EncodeU64(value) + rest) == Got(value, rest)
  {
    WordWidths();
    ParseWordRoundTrip(value, 8, rest);
  }

  lemma ParseTextRoundTrip(text: Name, rest: seq<byte>, width: nat := 8)
    requires StorableText(text, width)
    ensures ParseText(EncodeText(text, width) + rest, width) == Got(text, rest)
  {
    ParseWordRoundTrip(|text|, width, text + rest);
    assert EncodeText(text, width) + rest == LittleEndian(|text|, width) + (text + rest);
    assert (text + rest)[..|text|] == text && (text + rest)[|text|..] == rest;
  }

  lemma ParseAtomRoundTrip(atom: Atom, rest: seq<byte>, width: nat := 8)
    requires StorableAtom(atom, width)
    ensures ParseAtom(EncodeAtom(atom, width) + rest, width) == Got(atom, rest)
  {
    match atom
    case Entity(id) =>
      assert (EncodeAtom(atom, width) + rest)[1..] == EncodeU64(id) + rest;
      ParseU64RoundTrip(id, rest);
    case Literal(text) =>
      assert (EncodeAtom(atom, width) + rest)[1..] == EncodeText(text, width) + rest;
      ParseTextRoundTrip(text, rest, width);
  }

  lemma ParseDefineRoundTrip(slot: Name, fact: Fact, rest: seq<byte>, width: nat := 8)
    requires StorableOperation(Define(slot, fact), width)
    ensures ParseDefine(EncodeDefine(slot, fact, width) + rest, width) == Got(Define(slot, fact), rest)
  {
    hide ParseText, ParseAtom, EncodeText, EncodeAtom;
    var s3 := EncodeAtom(fact.target, width) + rest;
    var s2 := EncodeText(fact.relation, width) + s3;
    var s1 := EncodeAtom(fact.subject, width) + s2;
    assert EncodeDefine(slot, fact, width) + rest == EncodeText(slot, width) + s1;
    ParseTextRoundTrip(slot, s1, width);
    ParseAtomRoundTrip(fact.subject, s2, width);
    ParseTextRoundTrip(fact.relation, s3, width);
    ParseAtomRoundTrip(fact.target, rest, width);
  }

  lemma Behead(tag: byte, body: seq<byte>, rest: seq<byte>)
    ensures ([tag] + body + rest)[0] == tag && ([tag] + body + rest)[1..] == body + rest
  {
  }

  lemma ParseOperationRoundTrip(op: Operation, rest: seq<byte>, width: nat := 8)
    requires StorableOperation(op, width)
    ensures ParseOperation(EncodeOperation(op, width) + rest, width) == Got(op, rest)
  {
    hide ParseText, ParseDefine, EncodeText, EncodeDefine, ParseU64;
    match op
    case AllocateEntity(entity) =>
      Behead(0, EncodeU64(entity), rest);
      ParseU64RoundTrip(entity, rest);
    case Define(slot, fact) =>
      Behead(1, EncodeDefine(slot, fact, width), rest);
      ParseDefineRoundTrip(slot, fact, rest, width);
    case Forget(slot) =>
      Behead(2, EncodeText(slot, width), rest);
      ParseTextRoundTrip(slot, rest, width);
  }

  lemma {:induction false} ParseOperationsRoundTrip(ops: seq<Operation>, rest: seq<byte>, width: nat := 8)
    requires forall i :: 0 <= i < |ops| ==> StorableOperation(ops[i], width)
    ensures ParseOperations(|ops|, EncodeOperations(ops, width) + rest, width) == Got(ops, rest)
    decreases |ops|
  {
    hide ParseOperation, EncodeOperation, StorableOperation;
    if ops == [] {
      assert EncodeOperations(ops, width) + rest == rest;
    } else {
      var s := EncodeOperations(ops[1..], width) + rest;
      assert EncodeOperations(ops, width) + rest == EncodeOperation(ops[0], width) + s;
      ParseOperationRoundTrip(ops[0], s, width);
      ParseOperationsRoundTrip(ops[1..], rest, width);
      assert [ops[0]] + ops[1..] == ops;
    }
  }

  predicate HeaderInRange(h: Header, width: nat := 8) {
    && h.parentWorld < U64 && h.resultingWorld < U64 && h.parentVersion < U64 && h.resultingVersion < U64
    && h.resultingAllocator < U64 && h.operationCount < Pow256(width)
  }

  lemma FieldRoundTrip(value: nat)
    requires value < U64
    ensures FromLittleEndian(EncodeU64(value)) == value
  {
    WordWidths();
    LittleEndianRoundTrip(value, 8);
  }

  lemma ParseHeaderRoundTrip(h: Header, rest: seq<byte>, width: nat := 8)
    requires HeaderInRange(h, width)
    ensures ParseHeader(EncodeHeader(h, width) + rest, width) == Got(h, rest)
  {
    hide FromLittleEndian, LittleEndian, EncodeU64;
    var s := EncodeHeader(h, width) + rest;
    FieldRoundTrip(h.parentWorld);
    FieldRoundTrip(h.resultingWorld);
    FieldRoundTrip(h.parentVersion);
    FieldRoundTrip(h.resultingVersion);
    FieldRoundTrip(h.resultingAllocator);
    LittleEndianRoundTrip(h.operationCount, width);
    assert s[..8] == EncodeU64(h.parentWorld);
    assert s[8..16] == EncodeU64(h.resultingWorld);
    assert s[16..24] == EncodeU64(h.parentVersion);
    assert s[24..32] == EncodeU64(h.resultingVersion);
    assert s[32..40] == EncodeU64(h.resultingAllocator);
    assert s[40..40 + width] == LittleEndian(h.operationCount, width);
    assert s[40 + width..] == rest;
  }

  /** A frame with every field in range decodes from its encoding exactly when it has at most a million
      operations, and then to itself: the encoder does not enforce the decoder's limit. */
  lemma PayloadRoundTrip(f: CommitFrame)
    requires Storable(f)
    ensures |f.operations| <= MAX_OPERATIONS_PER_FRAME ==> DecodePayload(EncodePayload(f)) == Some(f)
    ensures |f.operations| > MAX_OPERATIONS_PER_FRAME ==> DecodePayload(EncodePayload(f)) == None
  {
    hide ParseHeader, ParseOperations, EncodeHeader, EncodeOperations, StorableOperation;
    ParseHeaderRoundTrip(HeaderOf(f), EncodeOperations(f.operations));
    ParseOperationsRoundTrip(f.operations, []);
    assert EncodeOperations(f.operations) + [] == EncodeOperations(f.operations);
  }

  // ---- Encoding what was decoded ----

  lemma ParseWordCanonical(n: nat, s: seq<byte>)
    requires ParseWord(n, s).Got?
    ensures ParseWord(n, s).value < Pow256(n) && s == LittleEndian(ParseWord(n, s).value, n) + ParseWord(n, s).rest
  {
    FromLittleEndianRoundTrip(s[..n]);
    assert s == s[..n] + s[n..];
  }

  lemma ParseU64Canonical(s: seq<byte>)
    requires ParseU64(s).Got?
    ensures ParseU64(s).value < U64 && s == EncodeU64(ParseU64(s).value) + ParseU64(s).rest
  {
    WordWidths();
    ParseWordCanonical(8, s);
  }

  lemma ParseTextCanonical(s: seq<byte>, width: nat := 8)
    requires ParseText(s, width).Got?
    ensures StorableText(ParseText(s, width).value, width)
    ensures s == EncodeText(ParseText(s, width).value, width) + ParseText(s, width).rest
  {
    hide ParseWord, LittleEndian, ValidUtf8;
    ParseWordCanonical(width, s);
    var Got(n, rest) := ParseWord(width, s);
    assert s == LittleEndian(n, width) + rest[..n] + rest[n..];
  }

  lemma ParseAtomCanonical(s: seq<byte>, width: nat := 8)
    requires ParseAtom(s, width).Got?
    ensures StorableAtom(ParseAtom(s, width).value, width)
    ensures s == EncodeAtom(ParseAtom(s, width).value, width) + ParseAtom(s, width).rest
  {
    hide ParseU64, ParseText, EncodeText, StorableText;
    assert s == [s[0]] + s[1..];
    if s[0] == 0 {
      ParseU64Canonical(s[1..]);
    } else {
      ParseTextCanonical(s[1..], width);
    }
  }

  lemma Regroup(a: seq<byte>, b: seq<byte>, c: seq<byte>, d: seq<byte>, rest: seq<byte>)
    ensures a + (b + (c + (d + rest))) == (a + (b + (c + d))) + rest
  {
  }

  lemma ParseDefineCanonical(s: seq<byte>, width: nat := 8)
    requires ParseDefine(s, width).Got?
    ensures var Got(op, rest) := ParseDefine(s, width);
      op.Define? && StorableOperation(op, width) && s == EncodeDefine(op.slot, op.fact, width) + rest
  {
    hide ParseText, ParseAtom, EncodeText, EncodeAtom, StorableText, StorableAtom;
    ParseTextCanonical(s, width);
    var Got(slot, s1) := ParseText(s, width);
    ParseAtomCanonical(s1, width);
    var Got(subject, s2) := ParseAtom(s1, width);
    ParseTextCanonical(s2, width);
    var Got(relation, s3) := ParseText(s2, width);
    ParseAtomCanonical(s3, width);
    var Got(target, s4) := ParseAtom(s3, width);
    Regroup(EncodeText(slot, width), EncodeAtom(subject, width), EncodeText(relation, width), EncodeAtom(target, width), s4);
  }

  lemma ParseOperationCanonical(s: seq<byte>, width: nat := 8)
    requires ParseOperation(s, width).Got?
    ensures StorableOperation(ParseOperation(s, width).value, width)
    ensures s == EncodeOperation(ParseOperation(s, width).value, width) + ParseOperation(s, width).rest
  {
    hide ParseU64, ParseText, ParseDefine, EncodeText, EncodeDefine, StorableText, StorableAtom;
    assert s == [s[0]] + s[1..];
    if s[0] == 0 {
      ParseU64Canonical(s[1..]);
    } else if s[0] == 1 {
      ParseDefineCanonical(s[1..], width);
    } else {
      ParseTextCanonical(s[1..], width);
    }
  }

  lemma {:induction false} ParseOperationsCanonical(n: nat, s: seq<byte>, width: nat := 8)
    requires ParseOperations(n, s, width).Got?
    ensures var Got(ops, rest) := ParseOperations(n, s, width);
      && |ops| == n && (forall i :: 0 <= i < n ==> StorableOperation(ops[i], width))
      && s == EncodeOperations(ops, width) + rest
    decreases n
  {
    hide ParseOperation, EncodeOperation, StorableOperation;
    if n > 0 {
      ParseOperationCanonical(s, width);
      var Got(op, s1) := ParseOperation(s, width);
      ParseOperationsCanonical(n - 1, s1, width);
      var Got(ops, s2) := ParseOperations(n - 1, s1, width);
      assert ([op] + ops)[1..] == ops;
      assert s == EncodeOperation(op, width) + (EncodeOperations(ops, width) + s2);
      assert EncodeOperations([op] + ops, width) == EncodeOperation(op, width) + EncodeOperations(ops, width);
    }
  }

  lemma FieldCanonical(s: seq<byte>)
    requires |s| == 8
    ensures FromLittleEndian(s) < U64 && EncodeU64(FromLittleEndian(s)) == s
  {
    WordWidths();
    FromLittleEndianRoundTrip(s);
  }

  lemma ParseHeaderCanonical(s: seq<byte>, width: nat := 8)
    requires ParseHeader(s, width).Got?
    ensures HeaderInRange(ParseHeader(s, width).value, width)
    ensures s == EncodeHeader(ParseHeader(s, width).value, width) + ParseHeader(s, width).rest
  {
    hide FromLittleEndian, LittleEndian, EncodeU64;
    FieldCanonical(s[..8]);
    FieldCanonical(s[8..16]);
    FieldCanonical(s[16..24]);
    FieldCanonical(s[24..32]);
    FieldCanonical(s[32..40]);
    FromLittleEndianRoundTrip(s[40..40 + width]);
    assert s == s[..8] + s[8..16] + s[16..24] + s[24..32] + s[32..40] + s[40..40 + width] + s[40 + width..];
  }

  /** Whatever decodes is the encoding of what it decodes to: no two payloads mean the same frame. */
  lemma PayloadCanonical(payload: seq<byte>)
    requires DecodePayload(payload).Some?
    ensures var f := DecodePayload(payload).value;
      Storable(f) && |f.operations| <= MAX_OPERATIONS_PER_FRAME && EncodePayload(f) == payload
  {
    hide ParseHeader, ParseOperations, EncodeHeader, EncodeOperations, StorableOperation;
    ParseHeaderCanonical(payload);
    var Got(h, s) := ParseHeader(payload);
    ParseOperationsCanonical(h.operationCount, s);
    var Got(ops, rest) := ParseOperations(h.operationCount, s);
    assert EncodeOperations(ops) + [] == EncodeOperations(ops);
  }

  // ---- The encoder and decoder as the stores run them ----

  method WritePayload(f: CommitFrame) returns (output: seq<byte>)
    ensures output == EncodePayload(f)
  {
    hide EncodeHeader, EncodeOperation;
    output := EncodeHeader(HeaderOf(f));
    assert f.operations[0..] == f.operations;
    for i := 0 to |f.operations|
      invariant output + EncodeOperations(f.operations[i..]) == EncodePayload(f)
    {
      assert f.operations[i..][1..] == f.operations[i + 1..];
      output := output + EncodeOperation(f.operations[i]);
    }
  }

  /** A cursor over a payload. Every read returns what the parser finds at the cursor and moves past it, and
      a failed read returns nothing. */
  class Decoder {
    const bytes: seq<byte>
    var position: nat

    ghost predicate Valid()
      reads this
    {
      position <= |bytes|
    }

    ghost function Rest(): seq<byte>
      requires Valid()
      reads this
    {
      bytes[position..]
    }

    constructor (bytes: seq<byte>)
      ensures Valid() && Rest() == bytes && position == 0 && this.bytes == bytes
    {
      this.bytes := bytes;
      position := 0;
    }

    method Take(length: nat) returns (taken: Option<seq<byte>>)
      requires Valid()
      modifies this
      ensures Valid()
      ensures taken.Some? <==> length <= |old(Rest())|
      ensures taken.Some? ==> taken.value == old(Rest())[..length] && Rest() == old(Rest())[length..]
    {
      var end := position + length;
      if end > |bytes| {
        return None;
      }
      taken := Some(bytes[position..end]);
      position := end;
    }

    method ReadByte() returns (value: Option<byte>)
      requires Valid()
      modifies this
      ensures Valid()
      ensures value.Some? <==> old(Rest()) != []
      ensures value.Some? ==> value.value == old(Rest())[0] && Rest() == old(Rest())[1..]
    {
      var taken := Take(1);
      value := if taken.Some? then Some(taken.value[0]) else None;
    }

    method ReadWord(n: nat) returns (value: Option<nat>)
      requires Valid()
      modifies this
      ensures Valid()
      ensures match ParseWord(n, old(Rest())) case Bad => value == None case Got(v, rest) => value == Some(v) && Rest() == rest
    {
      var taken := Take(n);
      value := if taken.Some? then Some(FromLittleEndian(taken.value)) else None;
    }

    method ReadU64() returns (value: Option<nat>)
      requires Valid()
      modifies this
      ensures Valid()
      ensures match ParseU64(old(Rest())) case Bad => value == None case Got(v, rest) => value == Some(v) && Rest() == rest
    {
      value := ReadWord(8);
    }

    method ReadText(width: nat := 8) returns (value: Option<Name>)
      requires Valid()
      modifies this
      ensures Valid()
      ensures match ParseText(old(Rest()), width) case Bad => value == None case Got(v, rest) => value == Some(v) && Rest() == rest
    {
      hide ValidUtf8, ParseWord;
      var length := ReadWord(width);
      if length.None? {
        return None;
      }
      var taken := Take(length.value);
      value := if taken.Some? && ValidUtf8(taken.value) then taken else None;
    }

    method ReadAtom(width: nat := 8) returns (value: Option<Atom>)
      requires Valid()
      modifies this
      ensures Valid()
      ensures match ParseAtom(old(Rest()), width) case Bad => value == None case Got(v, rest) => value == Some(v) && Rest() == rest
    {
      hide ParseU64, ParseText;
      var tag := ReadByte();
      if tag == Some(0) {
        var id := ReadU64();
        value := if id.Some? then Some(Entity(id.value)) else None;
      } else if tag == Some(1) {
        var text := ReadText(width);
        value := if text.Some? then Some(Literal(text.value)) else None;
      } else {
        value := None;
      }
    }

    method ReadDefine(width: nat := 8) returns (value: Option<Operation>)
      requires Valid()
      modifies this
      ensures Valid()
      ensures match ParseDefine(old(Rest()), width) case Bad => value == None case Got(v, rest) => value == Some(v) && Rest() == rest
    {
      hide ParseText, ParseAtom;
      value := None;
      var slot := ReadText(width);
      if slot.None? { return; }
      var subject := ReadAtom(width);
      if subject.None? { return; }
      var relation := ReadText(width);
      if relation.None? { return; }
      var target := ReadAtom(width);
      if target.None? { return; }
      value := Some(Define(slot.value, Fact(subject.value, relation.value, target.value)));
    }

    method ReadOperation(width: nat := 8) returns (value: Option<Operation>)
      requires Valid()
      modifies this
      ensures Valid()
      ensures match ParseOperation(old(Rest()), width) case Bad => value == None case Got(v, rest) => value == Some(v) && Rest() == rest
    {
      hide ParseU64, ParseText, ParseDefine;
      var tag := ReadByte();
      value := None;
      if tag == Some(0) {
        var entity := ReadU64();
        value := if entity.Some? then Some(AllocateEntity(entity.value)) else None;
      } else if tag == Some(1) {
        value := ReadDefine(width);
      } else if tag == Some(2) {
        var slot := ReadText(width);
        value := if slot.Some? then Some(Forget(slot.value)) else None;
      }
    }

    method ReadHeader(width: nat := 8) returns (value: Option<Header>)
      requires Valid()
      modifies this
      ensures Valid()
      ensures match ParseHeader(old(Rest()), width) case Bad => value == None case Got(v, rest) => value == Some(v) && Rest() == rest
    {
      hide FromLittleEndian;
      ghost var s := Rest();
      value := None;
      var parentWorld := ReadU64();
      if parentWorld.None? { return; }
      var resultingWorld := ReadU64();
      if resultingWorld.None? { return; }
      assert Rest() == s[16..] && s[8..][..8] == s[8..16];
      var parentVersion := ReadU64();
      if parentVersion.None? { return; }
      assert Rest() == s[24..] && s[16..][..8] == s[16..24];
      var resultingVersion := ReadU64();
      if resultingVersion.None? { return; }
      assert Rest() == s[32..] && s[24..][..8] == s[24..32];
      var resultingAllocator := ReadU64();
      if resultingAllocator.None? { return; }
      assert Rest() == s[40..] && s[32..][..8] == s[32..40];
      var operationCount := ReadWord(width);
      if operationCount.None? { return; }
      assert Rest() == s[40 + width..] && s[40..][..width] == s[40..40 + width];
      value := Some(Header(parentWorld.value, resultingWorld.value, parentVersion.value, resultingVersion.value,
                           resultingAllocator.value, operationCount.value));
    }

    method ReadOperations(n: nat, width: nat := 8) returns (value: Option<seq<Operation>>)
      requires Valid()
      modifies this
      ensures Valid()
      ensures match ParseOperations(n, old(Rest()), width) case Bad => value == None case Got(v, rest) => value == Some(v) && Rest() == rest
    {
      hide ParseOperation;
      var operations: seq<Operation> := [];
      ghost var all := ParseOperations(n, Rest(), width);
      assert all.Got? ==> [] + all.value == all.value;
      for i := 0 to n
        invariant Valid()
        invariant all == match ParseOperations(n - i, Rest(), width) case Bad => Bad case Got(ops, rest) => Got(operations + ops, rest)
      {
        ghost var before := Rest();
        ParseOperationsStep(n - i, before, operations, width);
        var operation := ReadOperation(width);
        if operation.None? {
          return None;
        }
        operations := operations + [operation.value];
      }
      assert operations + [] == operations;
      value := Some(operations);
    }
  }

  lemma ParseOperationsStep(n: nat, s: seq<byte>, done: seq<Operation>, width: nat := 8)
    requires n > 0
    ensures match ParseOperation(s, width)
      case Bad => ParseOperations(n, s, width) == Bad
      case Got(op, s1) =>
        (match ParseOperations(n, s, width) case Bad => Bad case Got(ops, rest) => Got(done + ops, rest))
        == (match ParseOperations(n - 1, s1, width) case Bad => Bad case Got(ops, rest) => Got((done + [op]) + ops, rest))
  {
    match ParseOperation(s, width)
    case Bad =>
    case Got(op, s1) =>
      match ParseOperations(n - 1, s1, width)
      case Bad =>
      case Got(ops, _) => assert done + ([op] + ops) == (done + [op]) + ops;
  }

  method ReadPayload(payload: seq<byte>) returns (frame: Option<CommitFrame>)
    ensures frame == DecodePayload(payload)
  {
    hide ParseHeader, ParseOperations;
    var decoder := new Decoder(payload);
    var header := decoder.ReadHeader();
    if header.None? {
      return None;
    }
    var h := header.value;
    if h.operationCount > MAX_OPERATIONS_PER_FRAME {
      return None;
    }
    var operations := decoder.ReadOperations(h.operationCount);
    if operations.None? || decoder.position != |payload| {
      return None;
    }
    frame := Some(CommitFrame(h.parentWorld, h.resultingWorld, h.parentVersion, h.resultingVersion, h.resultingAllocator,
                              operations.value));
  }
}
