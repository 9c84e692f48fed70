/**
 The bytes of a stored document: a header with counts, then for each word its length, the
 length of its position stream, its text and the stream. A string stands for its UTF-8 bytes,
 one character for each byte, so string order is byte order.
 */
module DocumentFiles {
  import opened Outcomes
  import opened Varints
  import opened QueryTree
  import opened Oracle
  import opened PhraseCursors
  import opened StoredDocument
  import opened DocumentPayload

  /** The letters PD02 as one little-endian number. */
  const MAGIC: nat := 0x3230_4450
  const PROFILE: nat := 1

  // ----- text -----

  predicate Continues(b: Byte) {
    128 <= b < 192
  }

  /** The bytes of the scalar value at the front, or zero when there is none. */
  function ScalarLength(b: seq<Byte>): (n: nat)
    ensures n <= |b|
  {
    if b == [] then 0
    else if b[0] < 0x80 then 1
    else if |b| >= 2 && 0xC2 <= b[0] <= 0xDF && Continues(b[1]) then 2
    else if |b| >= 3 && Continues(b[2]) && ThreeBytes(b[0], b[1]) then 3
    else if |b| >= 4 && Continues(b[2]) && Continues(b[3]) && FourBytes(b[0], b[1]) then 4
    else 0
  }

  /** Neither an overlong form nor a surrogate. */
  predicate ThreeBytes(first: Byte, second: Byte) {
    || (first == 0xE0 && 0xA0 <= second <= 0xBF)
    || (first == 0xED && 0x80 <= second <= 0x9F)
    || ((0xE1 <= first <= 0xEC || 0xEE <= first <= 0xEF) && Continues(second))
  }

  /** Neither an overlong form nor a value beyond the last scalar. */
  predicate FourBytes(first: Byte, second: Byte) {
    || (first == 0xF0 && 0x90 <= second <= 0xBF)
    || (0xF1 <= first <= 0xF3 && Continues(second))
    || (first == 0xF4 && 0x80 <= second <= 0x8F)
  }

  predicate Utf8(b: seq<Byte>)
    decreases |b|
  {
    b == [] || (ScalarLength(b) > 0 && Utf8(b[ScalarLength(b)..]))
  }

  predicate Narrow(s: string) {
    forall i | 0 <= i < |s| :: s[i] as int < 256
  }

  function TextBytes(s: string): (b: seq<Byte>)
    requires Narrow(s)
    ensures |b| == |s|
  {
    seq(|s|, i requires 0 <= i < |s| => s[i] as int)
  }

  function TextOf(b: seq<Byte>): (s: string)
    ensures |s| == |b| && Narrow(s) && TextBytes(s) == b
  {
    seq(|b|, i requires 0 <= i < |b| => b[i] as char)
  }

  lemma TextReadsBack(s: string)
    requires Narrow(s)
    ensures TextOf(TextBytes(s)) == s
  {
  }

  /** The string is the UTF-8 form of some text. */
  predicate IsText(s: string) {
    Narrow(s) && Utf8(TextBytes(s))
  }

  ghost predicate AllText(words: Document) {
    forall k | 0 <= k < |words| :: IsText(words[k])
  }

  // ----- one entry -----

  function EntryWidths(): (ws: seq<nat>)
    ensures |ws| == 4 && RowWidth(ws) == 8
  {
    FourWidths(2, 2, 4, 0);
    [2, 2, 4, 0]
  }

  ghost predicate EntryOk(e: Entry) {
    0 < |e.term| <= MAX_TERM && IsText(e.term) && |e.stream| < LIMIT
  }

  function EntryHead(e: Entry): (b: seq<Byte>)
    ensures |b| == 8
  {
    EncodeFields([|e.term|, 0, |e.stream|, 0], EntryWidths())
  }

  function EntryBytes(e: Entry): (b: seq<Byte>)
    requires Narrow(e.term)
    ensures |b| == 8 + |e.term| + |e.stream|
  {
    EntryHead(e) + TextBytes(e.term) + e.stream
  }

  /** The entry at the front of the bytes, and how many bytes it takes. */
  function ReadEntry(bytes: seq<Byte>): (r: Result<(Entry, nat), DocumentError>)
    ensures r.Ok? ==> 8 < r.value.1 <= |bytes|
  {
    if |bytes| < 8 then Err(Invalid)
    else
      var v := FieldValues(bytes[..8], EntryWidths());
      var text, end := 8 + v[0], 8 + v[0] + v[2];
      if v[0] == 0 || v[0] > MAX_TERM || v[1] != 0 || end > |bytes| || !Utf8(bytes[8..text]) then Err(Invalid)
      else Ok((Entry(TextOf(bytes[8..text]), bytes[text..end]), end))
  }

  lemma EntryReadsBack(e: Entry, rest: seq<Byte>)
    requires EntryOk(e)
    ensures ReadEntry(EntryBytes(e) + rest) == Ok((e, |EntryBytes(e)|))
  {
    hide EncodeFields, FieldValues, Span256, RowWidth, Utf8, TextBytes, TextOf;
    var bytes := EntryBytes(e) + rest;
    var vs, ws := [|e.term|, 0, |e.stream|, 0], EntryWidths();
    Widths();
    NoWidth();
    assert FieldsFit(vs, ws) by {
      forall i | 0 <= i < 4 ensures vs[i] < Span256(ws[i]) {
      }
    }
    FieldsReadBack(vs, ws);
    TextReadsBack(e.term);
    assert bytes[..8] == EntryHead(e);
    assert bytes[8..8 + |e.term|] == TextBytes(e.term);
    assert bytes[8 + |e.term|..8 + |e.term| + |e.stream|] == e.stream;
  }

  lemma NoWidth()
    ensures Span256(0) == 1
  {
  }

  lemma EntryIsCanonical(bytes: seq<Byte>)
    requires ReadEntry(bytes).Ok?
    ensures var (e, n) := ReadEntry(bytes).value;
            EntryOk(e) && bytes[..n] == EntryBytes(e)
  {
    hide EncodeFields, FieldValues, Span256, RowWidth, Utf8, TextBytes, TextOf;
    var (e, n) := ReadEntry(bytes).value;
    var ws := EntryWidths();
    var v := FieldValues(bytes[..8], ws);
    FieldsAreCanonical(bytes[..8], ws);
    Widths();
    NoWidth();
    assert v[2] < Span256(ws[2]) && v[3] < Span256(ws[3]);
    assert v == [|e.term|, 0, |e.stream|, 0];
    assert bytes[..n] == bytes[..8] + bytes[8..8 + v[0]] + bytes[8 + v[0]..n];
  }

  // ----- the whole document -----

  ghost predicate EntriesOk(entries: seq<Entry>) {
    forall i | 0 <= i < |entries| :: EntryOk(entries[i])
  }

  function Image(entries: seq<Entry>): seq<Byte>
    requires forall i | 0 <= i < |entries| :: Narrow(entries[i].term)
  {
    if entries == [] then [] else Image(entries[..|entries| - 1]) + EntryBytes(entries[|entries| - 1])
  }

  lemma {:induction false} ImageSize(entries: seq<Entry>)
    requires forall i | 0 <= i < |entries| :: Narrow(entries[i].term)
    ensures |Image(entries)| == EntriesBytes(entries)
    decreases |entries|
  {
    hide EntryBytes;
    if entries != [] {
      ImageSize(entries[..|entries| - 1]);
    }
  }

  /** Entries one after another, as the bytes after them see it. */
  lemma ImageSnoc(entries: seq<Entry>, e: Entry)
    requires (forall i | 0 <= i < |entries| :: Narrow(entries[i].term)) && Narrow(e.term)
    ensures Image(entries + [e]) == Image(entries) + EntryBytes(e)
  {
    assert (entries + [e])[..|entries|] == entries;
  }

  lemma {:induction false} ImageSplits(entries: seq<Entry>, n: nat)
    requires EntriesOk(entries) && n <= |entries|
    ensures |Image(entries[..n])| <= |Image(entries)|
    ensures Image(entries)[..|Image(entries[..n])|] == Image(entries[..n])
    decreases |entries| - n
  {
    hide EntryBytes, EntryOk;
    NarrowAll(entries);
    if n < |entries| {
      ImageSplits(entries, n + 1);
      assert entries[..n + 1][..n] == entries[..n];
      var a, b := Image(entries[..n]), Image(entries[..n + 1]);
      assert b == a + EntryBytes(entries[n]);
      assert Image(entries)[..|a|] == Image(entries)[..|b|][..|a|];
    } else {
      assert entries[..n] == entries;
    }
  }

  lemma NarrowAll(entries: seq<Entry>)
    requires EntriesOk(entries)
    ensures forall i | 0 <= i < |entries| :: Narrow(entries[i].term)
  {
    forall i | 0 <= i < |entries| ensures Narrow(entries[i].term) {
      assert EntryOk(entries[i]);
    }
  }

  /** The entry after the first `n` reads from the bytes after theirs. */
  lemma NextEntry(entries: seq<Entry>, n: nat)
    requires EntriesOk(entries) && n < |entries|
    ensures |Image(entries[..n])| <= |Image(entries)|
    ensures ReadEntry(Image(entries)[|Image(entries[..n])|..]) == Ok((entries[n], |EntryBytes(entries[n])|))
    ensures |Image(entries[..n + 1])| == |Image(entries[..n])| + |EntryBytes(entries[n])|
  {
    hide EntryBytes, ReadEntry;
    NarrowAll(entries);
    ImageSplits(entries, n);
    ImageSplits(entries, n + 1);
    assert entries[..n + 1][..n] == entries[..n];
    var whole, a, b := Image(entries), Image(entries[..n]), Image(entries[..n + 1]);
    assert EntryOk(entries[n]);
    EntryReadsBack(entries[n], whole[|b|..]);
    assert whole[|a|..] == EntryBytes(entries[n]) + whole[|b|..] by {
      assert whole == whole[..|b|] + whole[|b|..];
      assert b == a + EntryBytes(entries[n]);
    }
  }

  function HeadWidths(): (ws: seq<nat>)
    ensures |ws| == 4 && RowWidth(ws) == HEADER
  {
    FourWidths(4, 4, 4, 4);
    [4, 4, 4, 4]
  }

  function HeadBytes(tokens: nat, terms: nat): (b: seq<Byte>)
    ensures |b| == HEADER
  {
    EncodeFields([MAGIC, PROFILE, tokens, terms], HeadWidths())
  }

  function DocumentBytes(p: Payload): seq<Byte>
    requires forall i | 0 <= i < |p.entries| :: Narrow(p.entries[i].term)
  {
    HeadBytes(p.tokens, |p.entries|) + Image(p.entries)
  }

  /** The bytes are the stored form of one payload. */
  ghost predicate IsDocument(bytes: seq<Byte>, p: Payload) {
    && p.tokens < LIMIT && |p.entries| < LIMIT && EntriesOk(p.entries)
    && (forall i | 0 <= i < |p.entries| :: Narrow(p.entries[i].term))
    && bytes == DocumentBytes(p)
  }

  lemma HeadReadsBack(tokens: nat, terms: nat)
    requires tokens < LIMIT && terms < LIMIT
    ensures FieldValues(HeadBytes(tokens, terms), HeadWidths()) == [MAGIC, PROFILE, tokens, terms]
  {
    hide EncodeFields, FieldValues, Span256, RowWidth;
    Widths();
    var vs, ws := [MAGIC, PROFILE, tokens, terms], HeadWidths();
    assert FieldsFit(vs, ws) by {
      forall i | 0 <= i < 4 ensures vs[i] < Span256(ws[i]) {
      }
    }
    FieldsReadBack(vs, ws);
  }

  lemma HeadIsCanonical(b: seq<Byte>)
    requires |b| == HEADER
    ensures var v := FieldValues(b, HeadWidths());
            (v[0] == MAGIC && v[1] == PROFILE ==> b == HeadBytes(v[2], v[3])) && v[2] < LIMIT && v[3] < LIMIT
  {
    hide EncodeFields, FieldValues, Span256, RowWidth;
    Widths();
    var ws := HeadWidths();
    var v := FieldValues(b, ws);
    FieldsAreCanonical(b, ws);
    assert v[2] < Span256(ws[2]) && v[3] < Span256(ws[3]);
    assert v == [v[0], v[1], v[2], v[3]];
  }

  /** Header and body of a stored document. */
  lemma DocumentParts(bytes: seq<Byte>, p: Payload)
    requires IsDocument(bytes, p)
    ensures |bytes| == PayloadBytes(p) && FieldValues(bytes[..HEADER], HeadWidths()) ==
              [MAGIC, PROFILE, p.tokens, |p.entries|]
    ensures bytes[HEADER..] == Image(p.entries)
  {
    hide FieldValues, HeadBytes, HeadWidths, Image, EntryOk, Narrow;
    HeadReadsBack(p.tokens, |p.entries|);
    ImageSize(p.entries);
    assert bytes[..HEADER] == HeadBytes(p.tokens, |p.entries|);
  }

  /** Reads header and entries; accepts exactly the bytes of some payload. */
  method ReadDocument(bytes: seq<Byte>) returns (r: Result<Payload, DocumentError>)
    ensures r.Ok? ==> IsDocument(bytes, r.value)
    ensures forall p :: IsDocument(bytes, p) ==> r == Ok(p)
  {
    hide IsDocument, EntryOk, ReadEntry, EntryBytes, FieldValues, Image, Narrow, HeadBytes, HeadWidths;
    forall p | IsDocument(bytes, p)
      ensures |bytes| >= HEADER && FieldValues(bytes[..HEADER], HeadWidths()) == [MAGIC, PROFILE, p.tokens, |p.entries|]
    {
      DocumentParts(bytes, p);
    }
    if |bytes| < HEADER {
      return Err(Invalid);
    }
    var v := FieldValues(bytes[..HEADER], HeadWidths());
    if v[0] != MAGIC || v[1] != PROFILE {
      return Err(Invalid);
    }
    HeadIsCanonical(bytes[..HEADER]);
    var entries: seq<Entry> := [];
    var at := HEADER;
    NoEntries();
    while |entries| < v[3]
      invariant HEADER <= at <= |bytes| && |entries| <= v[3] && EntriesOk(entries)
      invariant (forall i | 0 <= i < |entries| :: Narrow(entries[i].term)) && bytes[HEADER..at] == Image(entries)
      invariant forall p | IsDocument(bytes, p) :: |entries| <= |p.entries| && p.entries[..|entries|] == entries
      decreases v[3] - |entries|
    {
      var next := ReadEntry(bytes[at..]);
      forall p | IsDocument(bytes, p) ensures next.Ok? && next.value.0 == p.entries[|entries|] {
        EntryRead(bytes, p, entries, at);
      }
      if next.Err? {
        return Err(Invalid);
      }
      EntryIsCanonical(bytes[at..]);
      var (e, n) := next.value;
      Grown(bytes, entries, at, e, n);
      entries, at := entries + [e], at + n;
    }
    forall p | IsDocument(bytes, p) ensures p == Payload(v[2], entries) && at == |bytes| {
      DocumentParts(bytes, p);
      assert p.entries[..|entries|] == p.entries;
      assert bytes[HEADER..at] == bytes[HEADER..];
    }
    if at != |bytes| {
      return Err(Invalid);
    }
    assert bytes == bytes[..HEADER] + bytes[HEADER..at];
    r := Ok(Payload(v[2], entries));
    Read(bytes, r.value);
  }

  lemma NoEntries()
    ensures Image([]) == [] && EntriesOk([])
  {
  }

  lemma Read(bytes: seq<Byte>, p: Payload)
    requires p.tokens < LIMIT && |p.entries| < LIMIT && EntriesOk(p.entries)
    requires forall i | 0 <= i < |p.entries| :: Narrow(p.entries[i].term)
    requires bytes == HeadBytes(p.tokens, |p.entries|) + Image(p.entries)
    ensures IsDocument(bytes, p)
  {
  }

  /** The entry a document has after those read is the one that reads next. */
  lemma EntryRead(bytes: seq<Byte>, p: Payload, entries: seq<Entry>, at: nat)
    requires IsDocument(bytes, p) && |entries| < |p.entries| && p.entries[..|entries|] == entries
    requires HEADER <= at <= |bytes| && (forall i | 0 <= i < |entries| :: Narrow(entries[i].term)) &&
               bytes[HEADER..at] == Image(entries)
    ensures ReadEntry(bytes[at..]) == Ok((p.entries[|entries|], |EntryBytes(p.entries[|entries|])|))
  {
    hide ReadEntry, EntryBytes, Image, EntryOk, DocumentBytes;
    DocumentParts(bytes, p);
    NextEntry(p.entries, |entries|);
    assert bytes[at..] == bytes[HEADER..][at - HEADER..];
  }

  lemma Grown(bytes: seq<Byte>, entries: seq<Entry>, at: nat, e: Entry, n: nat)
    requires HEADER <= at <= |bytes| && EntriesOk(entries) && (forall i | 0 <= i < |entries| :: Narrow(entries[i].term))
    requires bytes[HEADER..at] == Image(entries) && EntryOk(e) && n <= |bytes| - at && bytes[at..][..n] == EntryBytes(e)
    ensures EntriesOk(entries + [e]) && (forall i | 0 <= i < |entries + [e]| :: Narrow((entries + [e])[i].term))
    ensures bytes[HEADER..at + n] == Image(entries + [e])
  {
    hide Image, EntryBytes, Utf8;
    assert Narrow(e.term);
    ImageSnoc(entries, e);
    assert bytes[HEADER..at + n] == bytes[HEADER..at] + bytes[at..][..n];
  }

  // ----- documents and words -----

  /** The bytes store these words. */
  ghost predicate StoredAs(words: Document, bytes: seq<Byte>) {
    exists p :: Stored(words, p) && IsDocument(bytes, p)
  }

  /** The terms of stored words are words, and fit. */
  lemma StoredEntries(words: Document, p: Payload)
    requires Stored(words, p) && AllText(words)
    ensures p.tokens < LIMIT && |p.entries| < LIMIT && EntriesOk(p.entries)
  {
    hide IsText, PositionsOf, Positions;
    DescribedIsGood(words, p);
    TotalCounts(p.entries, p.tokens);
    forall i | 0 <= i < |p.entries| ensures EntryOk(p.entries[i]) {
      assert EntryFor(words, p.entries[i]);
      EntryFits(p.entries, i);
    }
  }

  lemma {:induction false} EntryFits(entries: seq<Entry>, i: nat)
    requires i < |entries|
    ensures |entries[i].stream| <= EntriesBytes(entries)
    decreases |entries|
  {
    if i < |entries| - 1 {
      EntryFits(entries[..|entries| - 1], i);
    }
  }

  /** Words whose payload has only text are text. */
  lemma EntriesAreText(words: Document, p: Payload)
    requires Describes(words, p) && EntriesOk(p.entries)
    ensures AllText(words)
  {
    hide IsText, EntryFor;
    forall k | 0 <= k < |words| ensures IsText(words[k]) {
      assert HasEntry(p.entries, words[k]);
      var i :| 0 <= i < |p.entries| && p.entries[i].term == words[k];
      assert EntryOk(p.entries[i]);
    }
  }

  /** The words' bytes, when they have a stored form. */
  method PrepareBytes(words: Document) returns (r: Result<seq<Byte>, DocumentError>)
    requires AllText(words)
    ensures r.Ok? <==> exists p :: Stored(words, p)
    ensures forall bytes :: StoredAs(words, bytes) <==> r == Ok(bytes)
  {
    hide Stored, IsDocument, EntryOk, AllText, DocumentBytes;
    var prepared := Prepare(words);
    if prepared.Err? {
      return Err(prepared.error);
    }
    var p := prepared.value;
    StoredEntries(words, p);
    NarrowAll(p.entries);
    WrittenDocument(p);
    assert forall bytes :: IsDocument(bytes, p) <==> bytes == DocumentBytes(p);
    r := Ok(DocumentBytes(p));
  }

  lemma WrittenDocument(p: Payload)
    requires p.tokens < LIMIT && |p.entries| < LIMIT && EntriesOk(p.entries)
    requires forall i | 0 <= i < |p.entries| :: Narrow(p.entries[i].term)
    ensures forall bytes :: IsDocument(bytes, p) <==> bytes == DocumentBytes(p)
  {
  }

  /** Accepts exactly the bytes that some words of text are prepared as. */
  method ValidateBytes(bytes: seq<Byte>) returns (r: Result<(nat, nat), DocumentError>)
    ensures r.Ok? <==> exists words :: AllText(words) && StoredAs(words, bytes)
    ensures r.Ok? ==> forall words | StoredAs(words, bytes) :: r.value.0 == |words|
  {
    hide IsDocument, EntryOk, AllText, DocumentBytes, Describes;
    forall words, p | Stored(words, p) && IsDocument(bytes, p) ensures |bytes| <= MAX_BYTES && p.tokens == |words| {
      DocumentParts(bytes, p);
      TokenCount(words, p);
    }
    if |bytes| > MAX_BYTES {
      return Err(TooLarge);
    }
    var document := ReadDocument(bytes);
    if document.Err? {
      return Err(document.error);
    }
    var p := document.value;
    r := Validate(p);
    if r.Ok? {
      ghost var words: Document :| Stored(words, p);
      TextParts(bytes, p);
      EntriesAreText(words, p);
      assert StoredAs(words, bytes);
    }
  }

  lemma TextParts(bytes: seq<Byte>, p: Payload)
    requires IsDocument(bytes, p)
    ensures EntriesOk(p.entries)
  {
  }

  /** Words and stored bytes determine each other. */
  lemma BytesOneToOne(a: Document, x: seq<Byte>, b: Document, y: seq<Byte>)
    requires StoredAs(a, x) && StoredAs(b, y)
    ensures a == b <==> x == y
  {
    hide EntryOk, DocumentBytes, Describes, PayloadBytes;
    var p :| Stored(a, p) && IsDocument(x, p);
    var q :| Stored(b, q) && IsDocument(y, q);
    if a == b {
      PayloadOnce(a, p, q);
    }
    if x == y {
      DocumentOnce(x, p, q);
      DescribedOnce(p, a, b);
    }
  }

  /** One byte string is at most one payload. */
  lemma DocumentOnce(bytes: seq<Byte>, p: Payload, q: Payload)
    requires IsDocument(bytes, p) && IsDocument(bytes, q)
    ensures p == q
  {
    hide EntryOk, DocumentBytes, Image, Narrow, FieldValues, HeadWidths, PayloadBytes;
    DocumentParts(bytes, p);
    DocumentParts(bytes, q);
    SameEntries(p.entries, q.entries, |p.entries|);
    assert p.entries[..|p.entries|] == p.entries && q.entries[..|q.entries|] == q.entries;
  }

  lemma {:induction false} SameEntries(a: seq<Entry>, b: seq<Entry>, n: nat)
    requires EntriesOk(a) && EntriesOk(b) && n <= |a| == |b|
    requires forall i | 0 <= i < |a| :: Narrow(a[i].term)
    requires forall i | 0 <= i < |b| :: Narrow(b[i].term)
    requires Image(a) == Image(b)
    ensures a[..n] == b[..n]
    decreases n
  {
    hide EntryOk, Narrow, Image, ReadEntry, EntryBytes;
    if n > 0 {
      SameEntries(a, b, n - 1);
      NextEntry(a, n - 1);
      NextEntry(b, n - 1);
      assert a[..n] == a[..n - 1] + [a[n - 1]] && b[..n] == b[..n - 1] + [b[n - 1]];
    }
  }

  // ----- phrases over stored bytes -----

  /** The bytes are a document with the expected counts. */
  ghost predicate Counted(bytes: seq<Byte>, p: Payload, expectedTokens: nat, expectedTerms: nat) {
    IsDocument(bytes, p) && p.tokens == expectedTokens && |p.entries| == expectedTerms
  }

  /** Succeeds exactly on stored documents with the expected counts, with the oracle's answer for their words. */
  method PhraseInBytes(bytes: seq<Byte>, expectedTokens: nat, expectedTerms: nat, phrase: seq<string>)
    returns (r: Result<bool, DocumentError>)
    ensures r.Ok? <==> && 0 < |phrase| <= MAX_TERMS
                       && exists words, p :: Stored(words, p) && Counted(bytes, p, expectedTokens, expectedTerms)
    ensures forall words | r.Ok? && StoredAs(words, bytes) :: r.value == LeafHolds(words, Phrase(phrase))
  {
    hide IsDocument, Stored, LeafHolds;
    var document := ReadDocument(bytes);
    if document.Err? {
      return Err(document.error);
    }
    r := PhraseMatches(document.value, expectedTokens, expectedTerms, phrase);
  }

  /** Decodes only the wanted streams of the stored bytes; on every stored document the same answer. */
  method SelectedInBytes(bytes: seq<Byte>, expectedTokens: nat, expectedTerms: nat, phrase: seq<string>)
    returns (r: Result<bool, DocumentError>)
    ensures r.Ok? <==> && 0 < |phrase| <= MAX_TERMS
                       && exists p :: Counted(bytes, p, expectedTokens, expectedTerms) && Selectable(p, phrase)
    ensures forall words, p | 0 < |phrase| <= MAX_TERMS && Stored(words, p) &&
              Counted(bytes, p, expectedTokens, expectedTerms) ::
              r == Ok(LeafHolds(words, Phrase(phrase)))
  {
    hide IsDocument, Stored, LeafHolds, Selectable;
    var document := ReadDocument(bytes);
    if document.Err? {
      return Err(document.error);
    }
    r := SelectedPhraseMatches(document.value, expectedTokens, expectedTerms, phrase);
  }
}
