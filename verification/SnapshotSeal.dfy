/** What every snapshot file that opens has in common, said on its bytes: a seal over all of them, a journal in front of
    it, and sections that lie inside it and apart from each other. */
module SnapshotSeal {
  import opened Words
  import opened Orders
  import opened SnapshotSections
  import opened SnapshotFile

  /** The eight-byte word at an offset. */
  function Word(bytes: seq<byte>, at: nat): nat
    requires at + 8 <= |bytes|
  {
    FromLittleEndian(bytes[at..at + 8])
  }

  /** Where a section's start and length are written. */
  const SPANS_AT: nat := 112

  function SpanAt(bytes: seq<byte>, i: nat): Span
    requires |bytes| >= HEADER_LEN && i < SECTION_COUNT
  {
    Span(Word(bytes, SPANS_AT + 16 * i), Word(bytes, SPANS_AT + 16 * i + 8))
  }

  lemma WordPlace(bytes: seq<byte>, i: nat)
    requires |bytes| >= HEADER_LEN && i < 38
    ensures WordsIn(bytes)[i] == Word(bytes, 16 + 8 * i)
  {
    hide Rows, FromLittleEndian;
    var header := bytes[16..HEADER_LEN];
    RowPlace(WordRow(8), header, i, 8 * i);
    assert header[8 * i..8 * i + 8] == bytes[16 + 8 * i..16 + 8 * i + 8];
  }

  /** Magic, version, length, trailer and a digest of everything behind the header. */
  ghost predicate Sealed(bytes: seq<byte>) {
    && HEADER_LEN + 8 <= |bytes| <= MAX_SNAPSHOT
    && bytes[..8] == SNAPSHOT_MAGIC && bytes[|bytes| - 8..] == TRAILER
    && bytes[8..12] == LittleEndian(1, 4) && bytes[12..16] == LittleEndian(320, 4)
    && Word(bytes, 16) == |bytes| && Word(bytes, 24) == Digest(bytes[320..])
  }

  lemma EnvelopedIsSealed(bytes: seq<byte>)
    requires Enveloped(bytes)
    ensures Sealed(bytes)
  {
    hide FromLittleEndian, LittleEndian, Digest, WordsIn;
    WordPlace(bytes, 0);
    WordPlace(bytes, 1);
    FromLittleEndianRoundTrip(bytes[8..12]);
    FromLittleEndianRoundTrip(bytes[12..16]);
  }

  lemma TwoPlaces<T>(s: seq<T>, a: T, b: T) returns (p: nat, q: nat)
    requires multiset{a, b} <= multiset(s)
    ensures p < |s| && q < |s| && p != q && s[p] == a && s[q] == b
  {
    assert a in multiset(s);
    p :| p < |s| && s[p] == a;
    var rest := s[..p] + s[p + 1..];
    assert s == s[..p] + [s[p]] + s[p + 1..];
    assert multiset(rest) == multiset(s) - multiset{a};
    assert b in multiset(rest);
    var k: nat :| k < |rest| && rest[k] == b;
    q := if k < p then k else k + 1;
  }

  lemma {:induction false} Chained(ordered: seq<Span>, p: nat, q: nat)
    requires NoOverlap(ordered) && p < q < |ordered|
    ensures ordered[p].start + ordered[p].length <= ordered[q].start
    decreases q
  {
    assert ordered[q - 1].start + ordered[q - 1].length <= ordered[q].start;
    if p < q - 1 {
      Chained(ordered, p, q - 1);
    }
  }

  ghost predicate Apart(a: Span, b: Span) {
    a.start + a.length <= b.start || b.start + b.length <= a.start
  }

  lemma LaidOutIsApart(spans: seq<Span>, size: nat, i: nat, j: nat)
    requires LaidOut(spans, size) && i < j < |spans|
    ensures Apart(spans[i], spans[j])
  {
    var ordered := Sort(ByStart, spans);
    assert spans == spans[..i] + [spans[i]] + spans[i + 1..j] + [spans[j]] + spans[j + 1..];
    assert multiset{spans[i], spans[j]} <= multiset(spans);
    var p, q := TwoPlaces(ordered, spans[i], spans[j]);
    if p < q {
      Chained(ordered, p, q);
    } else {
      Chained(ordered, q, p);
    }
  }

  lemma SpansRead(bytes: seq<byte>, i: nat)
    requires |bytes| >= HEADER_LEN && i < SECTION_COUNT
    ensures SpanAt(bytes, i) == SpansIn(WordsIn(bytes))[i]
  {
    hide FromLittleEndian, WordsIn;
    WordPlace(bytes, 12 + 2 * i);
    WordPlace(bytes, 13 + 2 * i);
  }

  lemma OpenedParts(bytes: seq<byte>, journal: seq<byte>)
    requires Open(bytes, journal).Some?
    ensures Enveloped(bytes) && HEADER_LEN <= |bytes|
    ensures FollowsJournal(MetadataIn(WordsIn(bytes)), journal)
    ensures var spans := SpansIn(WordsIn(bytes));
      && LaidOut(spans, |bytes|) && (forall i :: 0 <= i < SECTION_COUNT ==> InsideFile(spans[i], |bytes|))
      && Open(bytes, journal).value.history == bytes[spans[9].start..spans[9].start + spans[9].length]
  {
    hide FollowsJournal, Sort, WordsIn, ParseTable, CountsAgree, MetadataIn, SpansIn;
    SmallFile(bytes);
    SpansInside(SpansIn(WordsIn(bytes)), |bytes|);
  }

  /** A file that opens is sealed, the journal's prefix of the recorded length has the recorded digest, every section
      lies between header and trailer, no two of them overlap, and the last one is the history that opening returns. */
  lemma OpenedIsSealed(bytes: seq<byte>, journal: seq<byte>)
    requires Open(bytes, journal).Some?
    ensures Sealed(bytes)
    ensures 16 <= Word(bytes, 40) <= |journal| && Digest(journal[..Word(bytes, 40)]) == Word(bytes, 48)
    ensures forall i :: 0 <= i < SECTION_COUNT ==>
      HEADER_LEN <= SpanAt(bytes, i).start && SpanAt(bytes, i).start + SpanAt(bytes, i).length + 8 <= |bytes|
    ensures forall i, j :: 0 <= i < j < SECTION_COUNT ==> Apart(SpanAt(bytes, i), SpanAt(bytes, j))
    ensures var last := SpanAt(bytes, 9);
      Open(bytes, journal).value.history == bytes[last.start..last.start + last.length]
  {
    hide FromLittleEndian, Digest, Enveloped, LaidOut, Word, Open, WordsIn, SpansIn, Apart, Sealed, SpanAt;
    OpenedParts(bytes, journal);
    EnvelopedIsSealed(bytes);
    WordPlace(bytes, 3);
    WordPlace(bytes, 4);
    forall i | 0 <= i < SECTION_COUNT ensures SpanAt(bytes, i) == SpansIn(WordsIn(bytes))[i] {
      SpansRead(bytes, i);
    }
    forall i, j | 0 <= i < j < SECTION_COUNT ensures Apart(SpanAt(bytes, i), SpanAt(bytes, j)) {
      LaidOutIsApart(SpansIn(WordsIn(bytes)), |bytes|, i, j);
    }
  }
}
