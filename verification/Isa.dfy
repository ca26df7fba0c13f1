/** The binary form of an instruction stream: a dictionary of slots, predicates and literals, and thirteen-byte
    instructions. Two readers share it: a strict one, and one that lets a string run past the end. */
module Isa {
  import opened Words
  import opened Facts
  import opened FrameCodec

  // "SISA"
  const STREAM_MAGIC: seq<byte> := [0x53, 0x49, 0x53, 0x41]
  const ISA_VERSION: nat := 1

  datatype Instruction = Instruction(opcode: byte, argument: nat, immediate: nat)

  type DictEntry = (nat, Name)

  datatype Dictionary = Dictionary(slots: seq<DictEntry>, predicates: seq<DictEntry>, literals: seq<DictEntry>)

  datatype StreamFrame = StreamFrame(version: nat, namespace: nat, dictionary: Dictionary, localCount: nat, instructions: seq<Instruction>)

  // ---- What fits ----

  predicate EntryFits(width: nat, e: DictEntry) {
    e.0 < Pow256(width) && |e.1| < U32 && ValidUtf8(e.1)
  }

  predicate TableFits(width: nat, table: seq<DictEntry>) {
    |table| < U32 && forall i :: 0 <= i < |table| ==> EntryFits(width, table[i])
  }

  predicate InstructionFits(i: Instruction) { i.argument < U32 && i.immediate < U64 }

  predicate FrameFits(f: StreamFrame) {
    && f.version == ISA_VERSION && f.namespace < U64 && f.localCount < U32 && |f.instructions| < U32
    && TableFits(4, f.dictionary.slots) && TableFits(8, f.dictionary.predicates) && TableFits(8, f.dictionary.literals)
    && forall i :: 0 <= i < |f.instructions| ==> InstructionFits(f.instructions[i])
  }

  // ---- Encoding ----

  function EncodeEntry(width: nat, e: DictEntry): seq<byte> {
    LittleEndian(e.0, width) + (LittleEndian(|e.1|, 4) + e.1)
  }

  function EncodeEntries(width: nat, table: seq<DictEntry>): seq<byte> {
    if table == [] then [] else EncodeEntry(width, table[0]) + EncodeEntries(width, table[1..])
  }

  function EncodeTable(width: nat, table: seq<DictEntry>): seq<byte> {
    LittleEndian(|table|, 4) + EncodeEntries(width, table)
  }

  function EncodeInstruction(i: Instruction): (r: seq<byte>)
    ensures |r| == 13
  {
    [i.opcode] + (LittleEndian(i.argument, 4) + LittleEndian(i.immediate, 8))
  }

  function EncodeInstructions(instructions: seq<Instruction>): seq<byte> {
    if instructions == [] then [] else EncodeInstruction(instructions[0]) + EncodeInstructions(instructions[1..])
  }

  function EncodeBody(f: StreamFrame): seq<byte> {
    LittleEndian(f.localCount, 4) + (LittleEndian(|f.instructions|, 4) + EncodeInstructions(f.instructions))
  }

  function EncodeTables(d: Dictionary): seq<byte> {
    EncodeTable(4, d.slots) + (EncodeTable(8, d.predicates) + EncodeTable(8, d.literals))
  }

  function EncodeFrame(f: StreamFrame): seq<byte> {
    STREAM_MAGIC + (LittleEndian(f.version, 4) + (LittleEndian(f.namespace, 8) + (EncodeTables(f.dictionary) + EncodeBody(f))))
  }

  // ---- Decoding ----

  /** How a reader treats what the format leaves open: whether a string may be cut off by the end of the input,
      and which opcodes it knows. */
  datatype Reader = Reader(clips: bool, knows: byte -> bool)

  function ParseName(reader: Reader, s: seq<byte>): Parse<Name> {
    match ParseWord(4, s)
    case Bad => Bad
    case Got(length, rest) =>
      if |rest| < length && !reader.clips then Bad
      else
        var n := if |rest| < length then |rest| else length;
        if ValidUtf8(rest[..n]) then Got(rest[..n], rest[n..]) else Bad
  }

  function ParseEntry(reader: Reader, width: nat, s: seq<byte>): Parse<DictEntry> {
    match ParseWord(width, s)
    case Bad => Bad
    case Got(key, rest) =>
      match ParseName(reader, rest)
      case Bad => Bad
      case Got(name, rest') => Got((key, name), rest')
  }

  function ParseEntries(reader: Reader, width: nat, n: nat, s: seq<byte>): Parse<seq<DictEntry>> {
    if n == 0 then Got([], s)
    else match ParseEntry(reader, width, s)
      case Bad => Bad
      case Got(e, rest) =>
        match ParseEntries(reader, width, n - 1, rest)
        case Bad => Bad
        case Got(table, rest') => Got([e] + table, rest')
  }

  function ParseTable(reader: Reader, width: nat, s: seq<byte>): Parse<seq<DictEntry>> {
    match ParseWord(4, s)
    case Bad => Bad
    case Got(n, rest) => ParseEntries(reader, width, n, rest)
  }

  function ParseInstruction(reader: Reader, s: seq<byte>): Parse<Instruction> {
    if |s| < 13 || !reader.knows(s[0]) then Bad
    else Got(Instruction(s[0], FromLittleEndian(s[1..5]), FromLittleEndian(s[5..13])), s[13..])
  }

  function ParseInstructions(reader: Reader, n: nat, s: seq<byte>): Parse<seq<Instruction>> {
    if n == 0 then Got([], s)
    else match ParseInstruction(reader, s)
      case Bad => Bad
      case Got(i, rest) =>
        match ParseInstructions(reader, n - 1, rest)
        case Bad => Bad
        case Got(instructions, rest') => Got([i] + instructions, rest')
  }

  function ParseTables(reader: Reader, s: seq<byte>): Parse<Dictionary> {
    match ParseTable(reader, 4, s)
    case Bad => Bad
    case Got(slots, s1) =>
      match ParseTable(reader, 8, s1)
      case Bad => Bad
      case Got(predicates, s2) =>
        match ParseTable(reader, 8, s2)
        case Bad => Bad
        case Got(literals, s3) => Got(Dictionary(slots, predicates, literals), s3)
  }

  datatype Body = Body(localCount: nat, instructions: seq<Instruction>)

  function ParseBody(reader: Reader, s: seq<byte>): Parse<Body> {
    match ParseWord(4, s)
    case Bad => Bad
    case Got(localCount, s1) =>
      match ParseWord(4, s1)
      case Bad => Bad
      case Got(n, s2) =>
        match ParseInstructions(reader, n, s2)
        case Bad => Bad
        case Got(instructions, s3) => Got(Body(localCount, instructions), s3)
  }

  function ParseFrame(reader: Reader, s: seq<byte>): Parse<StreamFrame> {
    if |s| < 4 || s[..4] != STREAM_MAGIC then Bad
    else match ParseWord(4, s[4..])
      case Bad => Bad
      case Got(version, s1) =>
        if version != ISA_VERSION then Bad
        else match ParseWord(8, s1)
          case Bad => Bad
          case Got(namespace, s2) =>
            match ParseTables(reader, s2)
            case Bad => Bad
            case Got(dictionary, s3) =>
              match ParseBody(reader, s3)
              case Bad => Bad
              case Got(body, rest) => Got(StreamFrame(version, namespace, dictionary, body.localCount, body.instructions), rest)
  }

  // ---- Round trip ----

  lemma NameRoundTrip(reader: Reader, name: Name, rest: seq<byte>)
    requires |name| < U32 && ValidUtf8(name)
    ensures ParseName(reader, LittleEndian(|name|, 4) + name + rest) == Got(name, rest)
  {
    hide ValidUtf8;
    WordWidths();
    ParseWordRoundTrip(|name|, 4, name + rest);
    assert LittleEndian(|name|, 4) + name + rest == LittleEndian(|name|, 4) + (name + rest);
    assert (name + rest)[..|name|] == name && (name + rest)[|name|..] == rest;
  }

  lemma EntryRoundTrip(reader: Reader, width: nat, e: DictEntry, rest: seq<byte>)
    requires EntryFits(width, e)
    ensures ParseEntry(reader, width, EncodeEntry(width, e) + rest) == Got(e, rest)
  {
    hide ParseWord, ParseName, LittleEndian, ValidUtf8;
    var tail := LittleEndian(|e.1|, 4) + e.1 + rest;
    assert EncodeEntry(width, e) + rest == LittleEndian(e.0, width) + tail;
    ParseWordRoundTrip(e.0, width, tail);
    NameRoundTrip(reader, e.1, rest);
  }

  lemma {:induction false} EntriesRoundTrip(reader: Reader, width: nat, table: seq<DictEntry>, rest: seq<byte>)
    requires forall i :: 0 <= i < |table| ==> EntryFits(width, table[i])
    ensures ParseEntries(reader, width, |table|, EncodeEntries(width, table) + rest) == Got(table, rest)
    decreases |table|
  {
    hide ParseEntry, EncodeEntry, EntryFits;
    if table == [] {
      assert EncodeEntries(width, table) + rest == rest;
    } else {
      var s := EncodeEntries(width, table[1..]) + rest;
      assert EncodeEntries(width, table) + rest == EncodeEntry(width, table[0]) + s;
      EntryRoundTrip(reader, width, table[0], s);
      EntriesRoundTrip(reader, width, table[1..], rest);
      assert [table[0]] + table[1..] == table;
    }
  }

  lemma TableRoundTrip(reader: Reader, width: nat, table: seq<DictEntry>, rest: seq<byte>)
    requires TableFits(width, table)
    ensures ParseTable(reader, width, EncodeTable(width, table) + rest) == Got(table, rest)
  {
    hide ParseWord, ParseEntries, EncodeEntries, LittleEndian, EntryFits;
    WordWidths();
    assert EncodeTable(width, table) + rest == LittleEndian(|table|, 4) + (EncodeEntries(width, table) + rest);
    ParseWordRoundTrip(|table|, 4, EncodeEntries(width, table) + rest);
    EntriesRoundTrip(reader, width, table, rest);
  }

  lemma InstructionRoundTrip(reader: Reader, i: Instruction, rest: seq<byte>)
    requires InstructionFits(i) && reader.knows(i.opcode)
    ensures ParseInstruction(reader, EncodeInstruction(i) + rest) == Got(i, rest)
  {
    WordWidths();
    LittleEndianRoundTrip(i.argument, 4);
    LittleEndianRoundTrip(i.immediate, 8);
    var s := EncodeInstruction(i) + rest;
    assert s[1..5] == LittleEndian(i.argument, 4) && s[5..13] == LittleEndian(i.immediate, 8) && s[13..] == rest;
  }

  lemma {:induction false} InstructionsRoundTrip(reader: Reader, instructions: seq<Instruction>, rest: seq<byte>)
    requires forall i :: 0 <= i < |instructions| ==>
      InstructionFits(instructions[i]) && reader.knows(instructions[i].opcode)
    ensures ParseInstructions(reader, |instructions|, EncodeInstructions(instructions) + rest) == Got(instructions, rest)
    decreases |instructions|
  {
    hide ParseInstruction, EncodeInstruction, InstructionFits;
    if instructions == [] {
      assert EncodeInstructions(instructions) + rest == rest;
    } else {
      var s := EncodeInstructions(instructions[1..]) + rest;
      assert EncodeInstructions(instructions) + rest == EncodeInstruction(instructions[0]) + s;
      InstructionRoundTrip(reader, instructions[0], s);
      InstructionsRoundTrip(reader, instructions[1..], rest);
      assert [instructions[0]] + instructions[1..] == instructions;
    }
  }

  lemma TablesRoundTrip(reader: Reader, d: Dictionary, rest: seq<byte>)
    requires TableFits(4, d.slots) && TableFits(8, d.predicates) && TableFits(8, d.literals)
    ensures ParseTables(reader, EncodeTables(d) + rest) == Got(d, rest)
  {
    hide ParseTable, EncodeTable, TableFits;
    var s2 := EncodeTable(8, d.literals) + rest;
    var s1 := EncodeTable(8, d.predicates) + s2;
    assert EncodeTables(d) + rest == EncodeTable(4, d.slots) + s1;
    TableRoundTrip(reader, 4, d.slots, s1);
    TableRoundTrip(reader, 8, d.predicates, s2);
    TableRoundTrip(reader, 8, d.literals, rest);
  }

  lemma BodyRoundTrip(reader: Reader, f: StreamFrame, rest: seq<byte>)
    requires FrameFits(f) && forall i :: 0 <= i < |f.instructions| ==> reader.knows(f.instructions[i].opcode)
    ensures ParseBody(reader, EncodeBody(f) + rest) == Got(Body(f.localCount, f.instructions), rest)
  {
    hide ParseWord, ParseInstructions, EncodeInstructions, LittleEndian, InstructionFits, TableFits;
    WordWidths();
    var s2 := EncodeInstructions(f.instructions) + rest;
    var s1 := LittleEndian(|f.instructions|, 4) + s2;
    assert EncodeBody(f) + rest == LittleEndian(f.localCount, 4) + s1;
    ParseWordRoundTrip(f.localCount, 4, s1);
    ParseWordRoundTrip(|f.instructions|, 4, s2);
    InstructionsRoundTrip(reader, f.instructions, rest);
  }

  /** Either reader gets back a frame that fits, and stops where it ends. */
  lemma FrameRoundTrip(reader: Reader, f: StreamFrame, rest: seq<byte>)
    requires FrameFits(f) && forall i :: 0 <= i < |f.instructions| ==> reader.knows(f.instructions[i].opcode)
    ensures ParseFrame(reader, EncodeFrame(f) + rest) == Got(f, rest)
  {
    hide ParseWord, ParseTables, ParseBody, EncodeTables, EncodeBody, LittleEndian, InstructionFits, TableFits;
    WordWidths();
    var s := EncodeFrame(f) + rest;
    var s3 := EncodeBody(f) + rest;
    var s2 := EncodeTables(f.dictionary) + s3;
    var s1 := LittleEndian(f.namespace, 8) + s2;
    assert s[..4] == STREAM_MAGIC && s[4..] == LittleEndian(f.version, 4) + s1;
    ParseWordRoundTrip(f.version, 4, s1);
    ParseWordRoundTrip(f.namespace, 8, s2);
    TablesRoundTrip(reader, f.dictionary, s3);
    BodyRoundTrip(reader, f, rest);
  }

  // ---- What a strict reader accepts is an encoding ----

  lemma EntryCanonical(reader: Reader, width: nat, s: seq<byte>)
    requires !reader.clips && ParseEntry(reader, width, s).Got?
    ensures var Got(e, rest) := ParseEntry(reader, width, s);
      EntryFits(width, e) && s == EncodeEntry(width, e) + rest
  {
    hide ParseWord, LittleEndian, ValidUtf8;
    WordWidths();
    ParseWordCanonical(width, s);
    var Got(key, s1) := ParseWord(width, s);
    ParseWordCanonical(4, s1);
    var Got(n, s2) := ParseWord(4, s1);
    assert s2 == s2[..n] + s2[n..];
    assert s == LittleEndian(key, width) + (LittleEndian(n, 4) + s2[..n]) + s2[n..];
  }

  lemma {:induction false} EntriesCanonical(reader: Reader, width: nat, n: nat, s: seq<byte>)
    requires !reader.clips && ParseEntries(reader, width, n, s).Got?
    ensures var Got(table, rest) := ParseEntries(reader, width, n, s);
      && |table| == n && (forall i :: 0 <= i < n ==> EntryFits(width, table[i]))
      && s == EncodeEntries(width, table) + rest
    decreases n
  {
    hide ParseEntry, EncodeEntry, EntryFits;
    if n > 0 {
      EntryCanonical(reader, width, s);
      var Got(e, s1) := ParseEntry(reader, width, s);
      EntriesCanonical(reader, width, n - 1, s1);
      var Got(table, s2) := ParseEntries(reader, width, n - 1, s1);
      assert ([e] + table)[1..] == table;
      assert EncodeEntries(width, [e] + table) == EncodeEntry(width, e) + EncodeEntries(width, table);
      assert s == EncodeEntry(width, e) + (EncodeEntries(width, table) + s2);
    }
  }

  lemma TableCanonical(reader: Reader, width: nat, s: seq<byte>)
    requires !reader.clips && ParseTable(reader, width, s).Got?
    ensures var Got(table, rest) := ParseTable(reader, width, s);
      TableFits(width, table) && s == EncodeTable(width, table) + rest
  {
    hide ParseWord, ParseEntries, EncodeEntries, LittleEndian, EntryFits;
    WordWidths();
    ParseWordCanonical(4, s);
    var Got(n, s1) := ParseWord(4, s);
    EntriesCanonical(reader, width, n, s1);
    var Got(table, rest) := ParseEntries(reader, width, n, s1);
    assert s == LittleEndian(n, 4) + EncodeEntries(width, table) + rest;
  }

  lemma TablesCanonical(reader: Reader, s: seq<byte>)
    requires !reader.clips && ParseTables(reader, s).Got?
    ensures var Got(d, rest) := ParseTables(reader, s);
      TableFits(4, d.slots) && TableFits(8, d.predicates) && TableFits(8, d.literals) && s == EncodeTables(d) + rest
  {
    hide ParseTable, EncodeTable, TableFits;
    TableCanonical(reader, 4, s);
    var Got(a, s1) := ParseTable(reader, 4, s);
    TableCanonical(reader, 8, s1);
    var Got(b, s2) := ParseTable(reader, 8, s1);
    TableCanonical(reader, 8, s2);
    var Got(c, s3) := ParseTable(reader, 8, s2);
    assert s == EncodeTable(4, a) + (EncodeTable(8, b) + EncodeTable(8, c)) + s3;
  }

  lemma InstructionCanonical(reader: Reader, s: seq<byte>)
    requires ParseInstruction(reader, s).Got?
    ensures var Got(i, rest) := ParseInstruction(reader, s);
      InstructionFits(i) && reader.knows(i.opcode) && s == EncodeInstruction(i) + rest
  {
    WordWidths();
    FromLittleEndianRoundTrip(s[1..5]);
    FromLittleEndianRoundTrip(s[5..13]);
    assert s == [s[0]] + (s[1..5] + s[5..13]) + s[13..];
  }

  lemma {:induction false} InstructionsCanonical(reader: Reader, n: nat, s: seq<byte>)
    requires ParseInstructions(reader, n, s).Got?
    ensures var Got(instructions, rest) := ParseInstructions(reader, n, s);
      && |instructions| == n && (forall i :: 0 <= i < n ==> InstructionFits(instructions[i]) && reader.knows(instructions[i].opcode))
      && s == EncodeInstructions(instructions) + rest
    decreases n
  {
    hide ParseInstruction, EncodeInstruction, InstructionFits;
    if n > 0 {
      InstructionCanonical(reader, s);
      var Got(i, s1) := ParseInstruction(reader, s);
      InstructionsCanonical(reader, n - 1, s1);
      var Got(instructions, s2) := ParseInstructions(reader, n - 1, s1);
      assert ([i] + instructions)[1..] == instructions;
      assert EncodeInstructions([i] + instructions) == EncodeInstruction(i) + EncodeInstructions(instructions);
      assert s == EncodeInstruction(i) + (EncodeInstructions(instructions) + s2);
    }
  }

  lemma BodyCanonical(reader: Reader, s: seq<byte>, f: StreamFrame)
    requires ParseBody(reader, s).Got?
    requires ParseBody(reader, s).value == Body(f.localCount, f.instructions)
    ensures f.localCount < U32 && |f.instructions| < U32 && s == EncodeBody(f) + ParseBody(reader, s).rest
    ensures forall i :: 0 <= i < |f.instructions| ==>
      InstructionFits(f.instructions[i]) && reader.knows(f.instructions[i].opcode)
  {
    hide ParseWord, ParseInstructions, EncodeInstructions, LittleEndian, InstructionFits;
    WordWidths();
    ParseWordCanonical(4, s);
    var Got(localCount, s1) := ParseWord(4, s);
    ParseWordCanonical(4, s1);
    var Got(n, s2) := ParseWord(4, s1);
    InstructionsCanonical(reader, n, s2);
    var Got(instructions, rest) := ParseInstructions(reader, n, s2);
    assert s == LittleEndian(localCount, 4) + (LittleEndian(n, 4) + EncodeInstructions(instructions)) + rest;
  }

  /** Whatever the strict reader accepts fits, and is exactly the encoding of what it reads. */
  lemma FrameCanonical(reader: Reader, s: seq<byte>)
    requires !reader.clips && ParseFrame(reader, s).Got?
    ensures var Got(f, rest) := ParseFrame(reader, s);
      && FrameFits(f) && (forall i :: 0 <= i < |f.instructions| ==> reader.knows(f.instructions[i].opcode))
      && s == EncodeFrame(f) + rest
  {
    hide ParseWord, ParseTables, ParseBody, EncodeTables, EncodeBody, LittleEndian, InstructionFits, TableFits;
    WordWidths();
    ParseWordCanonical(4, s[4..]);
    var Got(version, s1) := ParseWord(4, s[4..]);
    ParseWordCanonical(8, s1);
    var Got(namespace, s2) := ParseWord(8, s1);
    TablesCanonical(reader, s2);
    var Got(d, s3) := ParseTables(reader, s2);
    var Got(f, rest) := ParseFrame(reader, s);
    BodyCanonical(reader, s3, f);
    Regrouped(LittleEndian(version, 4), LittleEndian(namespace, 8), EncodeTables(d), EncodeBody(f), rest);
    assert s == s[..4] + s[4..];
  }

  lemma Regrouped(a: seq<byte>, b: seq<byte>, c: seq<byte>, d: seq<byte>, rest: seq<byte>)
    ensures STREAM_MAGIC + (a + (b + (c + (d + rest)))) == STREAM_MAGIC + (a + (b + (c + d))) + rest
  {
  }

  // ---- The loops ----

  method WriteTable(width: nat, table: seq<DictEntry>) returns (output: seq<byte>)
    ensures output == EncodeTable(width, table)
  {
    hide EncodeEntry;
    output := LittleEndian(|table|, 4);
    assert table[0..] == table;
    for i := 0 to |table|
      invariant output + EncodeEntries(width, table[i..]) == EncodeTable(width, table)
    {
      assert table[i..][1..] == table[i + 1..];
      output := output + EncodeEntry(width, table[i]);
    }
  }

  method WriteFrame(f: StreamFrame) returns (output: seq<byte>)
    ensures output == EncodeFrame(f)
  {
    hide EncodeInstruction, EncodeTable;
    var slots := WriteTable(4, f.dictionary.slots);
    var predicates := WriteTable(8, f.dictionary.predicates);
    var literals := WriteTable(8, f.dictionary.literals);
    var head := STREAM_MAGIC + (LittleEndian(f.version, 4) + (LittleEndian(f.namespace, 8) + (slots + (predicates + literals))));
    var body := LittleEndian(f.localCount, 4) + LittleEndian(|f.instructions|, 4);
    assert f.instructions[0..] == f.instructions;
    for i := 0 to |f.instructions|
      invariant body + EncodeInstructions(f.instructions[i..]) == EncodeBody(f)
    {
      assert f.instructions[i..][1..] == f.instructions[i + 1..];
      body := body + EncodeInstruction(f.instructions[i]);
    }
    assert f.instructions[|f.instructions|..] == [] && body + [] == body;
    FrameParts(f, head, body);
    output := head + body;
  }

  lemma FrameParts(f: StreamFrame, head: seq<byte>, body: seq<byte>)
    requires head == STREAM_MAGIC + (LittleEndian(f.version, 4) + (LittleEndian(f.namespace, 8) + EncodeTables(f.dictionary)))
    requires body == EncodeBody(f)
    ensures head + body == EncodeFrame(f)
  {
    hide EncodeTables, EncodeBody, LittleEndian;
  }

  function Ahead<T>(done: seq<T>, p: Parse<seq<T>>): Parse<seq<T>> {
    match p case Bad => Bad case Got(later, rest) => Got(done + later, rest)
  }

  lemma NothingDone<T>(p: Parse<seq<T>>)
    ensures Ahead([], p) == p
  {
    assert p.Got? ==> [] + p.value == p.value;
  }

  method ReadEntries(reader: Reader, width: nat, n: nat, s: seq<byte>) returns (r: Parse<seq<DictEntry>>)
    ensures r == ParseEntries(reader, width, n, s)
  {
    hide ParseEntry;
    var table: seq<DictEntry> := [];
    var rest := s;
    NothingDone(ParseEntries(reader, width, n, s));
    for i := 0 to n
      invariant ParseEntries(reader, width, n, s) == Ahead(table, ParseEntries(reader, width, n - i, rest))
    {
      var e := ParseEntry(reader, width, rest);
      if e.Bad? {
        return Bad;
      }
      ghost var later := ParseEntries(reader, width, n - i - 1, e.rest);
      assert later.Got? ==> table + ([e.value] + later.value) == (table + [e.value]) + later.value;
      table, rest := table + [e.value], e.rest;
    }
    assert table + [] == table;
    r := Got(table, rest);
  }

  method ReadInstructions(reader: Reader, n: nat, s: seq<byte>) returns (r: Parse<seq<Instruction>>)
    ensures r == ParseInstructions(reader, n, s)
  {
    hide ParseInstruction;
    var instructions: seq<Instruction> := [];
    var rest := s;
    NothingDone(ParseInstructions(reader, n, s));
    for k := 0 to n
      invariant ParseInstructions(reader, n, s) == Ahead(instructions, ParseInstructions(reader, n - k, rest))
    {
      var i := ParseInstruction(reader, rest);
      if i.Bad? {
        return Bad;
      }
      ghost var later := ParseInstructions(reader, n - k - 1, i.rest);
      assert later.Got? ==> instructions + ([i.value] + later.value) == (instructions + [i.value]) + later.value;
      instructions, rest := instructions + [i.value], i.rest;
    }
    assert instructions + [] == instructions;
    r := Got(instructions, rest);
  }

  method ReadTable(reader: Reader, width: nat, s: seq<byte>) returns (r: Parse<seq<DictEntry>>)
    ensures r == ParseTable(reader, width, s)
  {
    var n := ParseWord(4, s);
    if n.Bad? {
      return Bad;
    }
    r := ReadEntries(reader, width, n.value, n.rest);
  }

  method ReadTables(reader: Reader, s: seq<byte>) returns (r: Parse<Dictionary>)
    ensures r == ParseTables(reader, s)
  {
    hide ParseTable;
    var slots := ReadTable(reader, 4, s);
    if slots.Bad? {
      return Bad;
    }
    var predicates := ReadTable(reader, 8, slots.rest);
    if predicates.Bad? {
      return Bad;
    }
    var literals := ReadTable(reader, 8, predicates.rest);
    if literals.Bad? {
      return Bad;
    }
    r := Got(Dictionary(slots.value, predicates.value, literals.value), literals.rest);
  }

  method ReadFrame(reader: Reader, s: seq<byte>) returns (r: Parse<StreamFrame>)
    ensures r == ParseFrame(reader, s)
  {
    hide ParseTables, ParseWord, ParseInstructions;
    if |s| < 4 || s[..4] != STREAM_MAGIC {
      return Bad;
    }
    var version := ParseWord(4, s[4..]);
    if version.Bad? || version.value != ISA_VERSION {
      return Bad;
    }
    var namespace := ParseWord(8, version.rest);
    if namespace.Bad? {
      return Bad;
    }
    var dictionary := ReadTables(reader, namespace.rest);
    if dictionary.Bad? {
      return Bad;
    }
    var localCount := ParseWord(4, dictionary.rest);
    if localCount.Bad? {
      return Bad;
    }
    var count := ParseWord(4, localCount.rest);
    if count.Bad? {
      return Bad;
    }
    var instructions := ReadInstructions(reader, count.value, count.rest);
    if instructions.Bad? {
      return Bad;
    }
    r := Got(StreamFrame(version.value, namespace.value, dictionary.value, localCount.value, instructions.value), instructions.rest);
  }
}
