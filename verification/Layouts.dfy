/** Where the fields lie in what is written, and the code that one program compiles to: what a reader and a writer that
    agree with each other could still both get wrong. */
module Layouts {
  import opened Words
  import opened Facts
  import opened Commits
  import opened FrameCodec
  import opened Isa
  import opened Interpreter
  import opened Compiler

  function Field(bytes: seq<byte>, at: nat, width: nat): nat
    requires at + width <= |bytes|
  {
    FromLittleEndian(bytes[at..at + width])
  }

  lemma FieldAt(bytes: seq<byte>, front: seq<byte>, value: nat, width: nat, rest: seq<byte>)
    requires value < Pow256(width) && bytes == front + (LittleEndian(value, width) + rest)
    ensures |front| + width <= |bytes| && Field(bytes, |front|, width) == value
  {
    LittleEndianRoundTrip(value, width);
    hide LittleEndian, FromLittleEndian;
    assert bytes[|front|..|front| + width] == LittleEndian(value, width);
  }

  /** A commit payload starts with six words in this order. */
  lemma PayloadFields(f: CommitFrame)
    requires Storable(f)
    ensures var payload := EncodePayload(f);
      && |payload| >= 48
      && Field(payload, 0, 8) == f.parentWorld && Field(payload, 8, 8) == f.resultingWorld
      && Field(payload, 16, 8) == f.parentVersion && Field(payload, 24, 8) == f.resultingVersion
      && Field(payload, 32, 8) == f.resultingAllocator && Field(payload, 40, 8) == |f.operations|
  {
    hide LittleEndian, FromLittleEndian, EncodeOperations, StorableOperation, Pow256;
    WordWidths();
    ParseHeaderRoundTrip(HeaderOf(f), EncodeOperations(f.operations));
  }

  /** An instruction is its opcode, a four-byte argument and an eight-byte immediate. */
  lemma InstructionFields(i: Instruction)
    requires InstructionFits(i)
    ensures var bytes := EncodeInstruction(i);
      bytes[0] == i.opcode && Field(bytes, 1, 4) == i.argument && Field(bytes, 5, 8) == i.immediate
  {
    hide LittleEndian, FromLittleEndian, Pow256;
    WordWidths();
    var argument, immediate := LittleEndian(i.argument, 4), LittleEndian(i.immediate, 8);
    FieldAt(EncodeInstruction(i), [i.opcode], i.argument, 4, immediate);
    assert EncodeInstruction(i) == [i.opcode] + argument + (immediate + []);
    FieldAt(EncodeInstruction(i), [i.opcode] + argument, i.immediate, 8, []);
  }

  /** A stream starts with its magic, the version in four bytes, the namespace in eight, and the number of slots in
      four. */
  lemma StreamFields(f: StreamFrame)
    requires FrameFits(f)
    ensures var bytes := EncodeFrame(f);
      && |bytes| >= 20 && bytes[..4] == STREAM_MAGIC && Field(bytes, 4, 4) == f.version
      && Field(bytes, 8, 8) == f.namespace && Field(bytes, 16, 4) == |f.dictionary.slots|
  {
    hide LittleEndian, FromLittleEndian, Pow256, TableFits, EncodeEntries, EncodeBody, InstructionFits;
    WordWidths();
    SlotsFit(f);
    var version, namespace := LittleEndian(f.version, 4), LittleEndian(f.namespace, 8);
    var tables, body := EncodeTables(f.dictionary), EncodeBody(f);
    var slots := |f.dictionary.slots|;
    var rest := EncodeEntries(4, f.dictionary.slots)
      + (EncodeTable(8, f.dictionary.predicates) + EncodeTable(8, f.dictionary.literals)) + body;
    var bytes := EncodeFrame(f);
    FieldAt(bytes, STREAM_MAGIC, f.version, 4, namespace + (tables + body));
    assert bytes == STREAM_MAGIC + version + (namespace + (tables + body));
    FieldAt(bytes, STREAM_MAGIC + version, f.namespace, 8, tables + body);
    assert tables + body == LittleEndian(slots, 4) + rest;
    assert bytes == STREAM_MAGIC + version + namespace + (LittleEndian(slots, 4) + rest);
    FieldAt(bytes, STREAM_MAGIC + version + namespace, slots, 4, rest);
  }

  lemma SlotsFit(f: StreamFrame)
    requires FrameFits(f)
    ensures |f.dictionary.slots| < U32
  {
  }

  const PROGRAM: seq<Call> :=
    [Allocate, Call.Define([0x73], TempRef(0), [0x70], LiteralRef([0x6C])), ExpectObject([0x73], LiteralRef([0x6C])),
     Call.Forget([0x73])]

  const FIRST_LITERAL: nat := 0x8000_0000_0000_0000

  lemma FirstPlaces(name: Name)
    ensures Intern([], name) == [name] == Intern([name], name) && PlaceOf([], name) == 0 == PlaceOf([name], name)
  {
  }

  lemma AllocateCode()
    ensures CompileCall(NEW_DRAFT, PROGRAM[0]) == Draft(1, [], [], [], [Instruction(1, 0, 0), Instruction(4, 0, 0)])
  {
  }

  lemma DefineCode(code: seq<Instruction>)
    ensures CompileCall(Draft(1, [], [], [], code), PROGRAM[1])
         == Draft(1, [[0x73]], [[0x70]], [[0x6C]],
                  code + [Instruction(3, 0, 0), Instruction(5, 0, 0), Instruction(5, 0, FIRST_LITERAL), Instruction(6, 0, 0)])
  {
    hide Intern, PlaceOf;
    FirstPlaces([0x73]);
    FirstPlaces([0x70]);
    FirstPlaces([0x6C]);
  }

  lemma ExpectAndForgetCode(code: seq<Instruction>)
    ensures var d := Draft(1, [[0x73]], [[0x70]], [[0x6C]], code);
      CompileCall(CompileCall(d, PROGRAM[2]), PROGRAM[3])
      == d.(code := code + [Instruction(0, 0, FIRST_LITERAL), Instruction(7, 0, 0)])
  {
    hide Intern, PlaceOf;
    FirstPlaces([0x73]);
    FirstPlaces([0x6C]);
  }

  lemma ProgramFits()
    ensures WellFormed(PROGRAM, 0)
    ensures var d1 := CompileCall(NEW_DRAFT, PROGRAM[0]);
      CompileAll(NEW_DRAFT, PROGRAM, 0)
      == CompileCall(CompileCall(CompileCall(d1, PROGRAM[1]), PROGRAM[2]), PROGRAM[3])
  {
    hide CompileCall;
    var p1, p2, p3 := PROGRAM[1..], PROGRAM[2..], PROGRAM[3..];
    assert p1[1..] == p2 && p2[1..] == p3 && p3[1..] == [];
    assert WellFormed(p3, 1) && WellFormed(p2, 1) && WellFormed(p1, 1);
    var d1 := CompileCall(NEW_DRAFT, PROGRAM[0]);
    var d2 := CompileCall(d1, PROGRAM[1]);
    var d3 := CompileCall(d2, PROGRAM[2]);
    assert CompileAll(d2, p2, 1) == CompileAll(d3, p3, 1) == CompileCall(d3, PROGRAM[3]);
    assert CompileAll(NEW_DRAFT, PROGRAM, 0) == CompileAll(d1, p1, 1) == CompileAll(d2, p2, 1);
  }

  /** What a program that allocates, defines, expects and forgets compiles to, number by number. */
  lemma ProgramCode()
    ensures WellFormed(PROGRAM, 0)
    ensures FrameOf(CompileAll(NEW_DRAFT, PROGRAM, 0), 9) == StreamFrame(
      1, 9, Dictionary([(0, [0x73])], [(0, [0x70])], [(FIRST_LITERAL, [0x6C])]), 1,
      [Instruction(1, 0, 0), Instruction(4, 0, 0), Instruction(3, 0, 0), Instruction(5, 0, 0),
       Instruction(5, 0, FIRST_LITERAL), Instruction(6, 0, 0), Instruction(0, 0, FIRST_LITERAL), Instruction(7, 0, 0)])
  {
    hide CompileCall, CompileAll;
    ProgramFits();
    AllocateCode();
    var code := [Instruction(1, 0, 0), Instruction(4, 0, 0)];
    DefineCode(code);
    code := code + [Instruction(3, 0, 0), Instruction(5, 0, 0), Instruction(5, 0, FIRST_LITERAL), Instruction(6, 0, 0)];
    ExpectAndForgetCode(code);
  }
}
