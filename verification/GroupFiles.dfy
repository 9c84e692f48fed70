/**
 The stored bytes of a segment group's records: the common header with its identity and page
 mask, and the directory and payload of a bitmap.
 */
module GroupFiles {
  import opened Outcomes
  import opened Varints
  import opened RankBitmap

  const HEADER_BYTES: nat := 72
  const MAX_BITMAP_BYTES: nat := 17480
  /** The letters PNG9 as one little-endian number. */
  const MAGIC: nat := 0x3947_4E50
  const VERSION: nat := 1
  const MEMBERS: nat := 3
  const MAX_OFFSET: nat := 512
  const LAST_BASE: nat := 0xFFFF_FF00

  /** Identity of a group: its relation and segment, its first block and its offset domain. */
  datatype Key = Key(relation: nat, segment: nat, base: nat, domain: nat)

  predicate KeyOk(k: Key) {
    && 0 < k.relation < LIMIT * LIMIT && 0 < k.segment < LIMIT * LIMIT
    && k.base < LIMIT && k.base % 256 == 0
    && 0 < k.domain <= MAX_OFFSET
  }

  datatype Header = Header(key: Key, kind: nat, count: nat, mask: set<nat>)

  /** Pages lie in the group, and the invalid last heap block is not one of them. */
  ghost predicate MaskOk(k: Key, mask: set<nat>) {
    (forall page | page in mask :: page < GROUP_PAGES) && !(k.base == LAST_BASE && 255 in mask)
  }

  ghost predicate HeaderOk(h: Header) {
    KeyOk(h.key) && 1 <= h.kind <= 3 && h.count < LIMIT && MaskOk(h.key, h.mask)
  }

  // ----- the header -----

  lemma HeaderTotal(a: seq<nat>, b: seq<nat>, c: seq<nat>)
    requires a == [4, 2, 1, 1] && b == [4, 4, 8, 8] && c == [2, 2, 4, 0]
    ensures RowWidth(a + b + c[..3]) == 40
  {
    hide RowWidth;
    FourWidths(4, 2, 1, 1);
    FourWidths(4, 4, 8, 8);
    FourWidths(2, 2, 4, 0);
    WidthsJoin(a, b);
    WidthsJoin(c[..3], [0]);
    WidthsJoin(a + b, c[..3]);
    assert c == c[..3] + [0];
    OneWidth(0);
  }

  lemma OneWidth(w: nat)
    ensures RowWidth([w]) == w
  {
  }

  /** Magic, version, kind, reserved, length, base, relation, segment, layout, pages, count. */
  function HeaderWidths(): (ws: seq<nat>)
    ensures |ws| == 11 && RowWidth(ws) == 40
  {
    var a, b, c := [4, 2, 1, 1], [4, 4, 8, 8], [2, 2, 4, 0];
    HeaderTotal(a, b, c);
    a + b + c[..3]
  }

  function HeaderValues(h: Header, length: nat): (vs: seq<nat>)
    ensures |vs| == 11
  {
    [MAGIC, VERSION, h.kind, 0, length, h.key.base, h.key.relation, h.key.segment, h.key.domain, |Pages(h.mask)|,
        h.count]
  }

  /** The fixed fields, then the mask words. */
  function HeaderBytes(h: Header, length: nat): (b: seq<Byte>)
    ensures |b| == HEADER_BYTES
  {
    EncodeFields(HeaderValues(h, length), HeaderWidths()) + PageBytes(h.mask, 32)
  }

  /** The bytes from `o` on hold `v` in `width` bytes, least significant first. */
  ghost predicate FieldIs(b: seq<Byte>, o: nat, width: nat, v: nat) {
    o + width <= |b| && b[o..o + width] == EncodeField(v, width)
  }

  lemma HeaderOffsets()
    ensures var ws := HeaderWidths();
            && RowWidth(ws[..0]) == 0 && RowWidth(ws[..1]) == 4 && RowWidth(ws[..2]) == 6 && RowWidth(ws[..3]) == 7
            && RowWidth(ws[..4]) == 8 && RowWidth(ws[..5]) == 12 && RowWidth(ws[..6]) == 16
            && RowWidth(ws[..7]) == 24 && RowWidth(ws[..8]) == 32 && RowWidth(ws[..9]) == 34
            && RowWidth(ws[..10]) == 36
  {
    hide RowWidth;
    var ws := HeaderWidths();
    assert ws == [4, 2, 1, 1, 4, 4, 8, 8, 2, 2, 4];
    NoWidths();
    assert ws[..0] == [];
    NextOffset(ws, 0);
    NextOffset(ws, 1);
    NextOffset(ws, 2);
    NextOffset(ws, 3);
    NextOffset(ws, 4);
    NextOffset(ws, 5);
    NextOffset(ws, 6);
    NextOffset(ws, 7);
    NextOffset(ws, 8);
    NextOffset(ws, 9);
  }

  lemma HeaderField(h: Header, length: nat, i: nat)
    requires i < 11
    ensures FieldIs(HeaderBytes(h, length), RowWidth(HeaderWidths()[..i]), HeaderWidths()[i],
              HeaderValues(h, length)[i])
  {
    hide EncodeFields, EncodeField, PageBytes, RowWidth, HeaderWidths, HeaderValues;
    var vs, ws := HeaderValues(h, length), HeaderWidths();
    var fields := EncodeFields(vs, ws);
    FieldAt(vs, ws, i);
    var o := RowWidth(ws[..i]);
    assert (fields + PageBytes(h.mask, 32))[o..o + ws[i]] == fields[o..o + ws[i]];
  }

  /** Where each field of a header stands, and which bit stands for a page. */
  lemma HeaderLayout(h: Header, length: nat)
    ensures var b := HeaderBytes(h, length);
            && FieldIs(b, 0, 4, MAGIC) && FieldIs(b, 4, 2, VERSION) && FieldIs(b, 6, 1, h.kind) && FieldIs(b, 7, 1, 0)
            && FieldIs(b, 8, 4, length) && FieldIs(b, 12, 4, h.key.base) && FieldIs(b, 16, 8, h.key.relation)
            && FieldIs(b, 24, 8, h.key.segment) && FieldIs(b, 32, 2, h.key.domain)
            && FieldIs(b, 34, 2, |Pages(h.mask)|) && FieldIs(b, 36, 4, h.count)
    ensures forall page: nat | page < GROUP_PAGES ::
              page in h.mask <==> Bit(HeaderBytes(h, length)[40 + page / 8], page % 8)
  {
    hide FieldIs, RowWidth, HeaderBytes, Pages, Bit, PagesBelow;
    HeaderOffsets();
    var ws := HeaderWidths();
    assert ws == [4, 2, 1, 1, 4, 4, 8, 8, 2, 2, 4];
    HeaderField(h, length, 0);
    HeaderField(h, length, 1);
    HeaderField(h, length, 2);
    HeaderField(h, length, 3);
    HeaderField(h, length, 4);
    HeaderField(h, length, 5);
    HeaderField(h, length, 6);
    HeaderField(h, length, 7);
    HeaderField(h, length, 8);
    HeaderField(h, length, 9);
    HeaderField(h, length, 10);
    forall page: nat | page < GROUP_PAGES
      ensures page in h.mask <==> Bit(HeaderBytes(h, length)[40 + page / 8], page % 8)
    {
      MaskByte(h, length, page / 8);
      ByteBits(h.mask, page / 8, page % 8);
    }
  }

  lemma MaskByte(h: Header, length: nat, j: nat)
    requires j < 32
    ensures HeaderBytes(h, length)[40 + j] == ByteAt(h.mask, j)
  {
    hide EncodeFields, ByteAt, HeaderWidths, HeaderValues;
  }

  /** The header that fixed fields and a mask say, if every check passes. */
  function CheckHeader(v: seq<nat>, mask: set<nat>, length: nat): Result<Header, BitmapError>
    requires |v| == 11
  {
    var key := Key(v[6], v[7], v[5], v[8]);
    if v[0] != MAGIC || v[1] != VERSION || !(1 <= v[2] <= 3) || v[3] != 0 || v[4] != length then Err(InvalidState)
    else if v[6] == 0 || v[7] == 0 || v[8] == 0 || v[8] > MAX_OFFSET || v[5] % 256 != 0 then Err(InvalidState)
    else if v[9] != |Pages(mask)| || (v[5] == LAST_BASE && 255 in mask) then Err(InvalidState)
    else Ok(Header(key, v[2], v[10], mask))
  }

  function ReadHeader(bytes: seq<Byte>): Result<Header, BitmapError> {
    if |bytes| < HEADER_BYTES then Err(InvalidState)
    else CheckHeader(FieldValues(bytes[..40], HeaderWidths()), BitsOf(bytes[40..HEADER_BYTES]), |bytes|)
  }

  /** At most 256 pages. */
  lemma {:induction false} FewPages(mask: set<nat>, n: nat)
    ensures |PagesBelow(mask, n)| <= n
    decreases n
  {
    if n > 0 {
      FewPages(mask, n - 1);
    }
  }

  lemma HeaderFits(h: Header, length: nat)
    requires HeaderOk(h) && length < LIMIT
    ensures FieldsFit(HeaderValues(h, length), HeaderWidths())
  {
    hide Span256, PagesBelow, RowWidth;
    Widths();
    FewPages(h.mask, GROUP_PAGES);
    var vs, ws := HeaderValues(h, length), HeaderWidths();
    forall i | 0 <= i < 11 ensures vs[i] < Span256(ws[i]) {
    }
  }

  /** A written header is read back. */
  lemma HeaderReadsBack(h: Header, rest: seq<Byte>)
    requires HeaderOk(h) && HEADER_BYTES + |rest| < LIMIT
    ensures ReadHeader(HeaderBytes(h, HEADER_BYTES + |rest|) + rest) == Ok(h)
  {
    hide FieldsFit, EncodeFields, FieldValues, PageBytes, BitsOf, PagesBelow, HeaderWidths;
    var length := HEADER_BYTES + |rest|;
    var head := HeaderBytes(h, length);
    var bytes := head + rest;
    HeaderFits(h, length);
    FieldsReadBack(HeaderValues(h, length), HeaderWidths());
    BytesReadBack(h.mask, 32);
    assert bytes[..40] == EncodeFields(HeaderValues(h, length), HeaderWidths());
    assert bytes[40..HEADER_BYTES] == PageBytes(h.mask, 32);
  }

  /** A header that reads is the one its values are written as. */
  lemma HeaderIsCanonical(bytes: seq<Byte>)
    requires ReadHeader(bytes).Ok?
    ensures var h := ReadHeader(bytes).value;
            && HeaderOk(h) && HEADER_BYTES <= |bytes| < LIMIT && bytes[..HEADER_BYTES] == HeaderBytes(h, |bytes|)
  {
    hide EncodeFields, FieldValues, PageBytes, BitsOf, PagesBelow, HeaderWidths, RowWidth, Span256;
    var h := ReadHeader(bytes).value;
    var ws := HeaderWidths();
    var v := FieldValues(bytes[..40], ws);
    var mask := BitsOf(bytes[40..HEADER_BYTES]);
    FieldsAreCanonical(bytes[..40], ws);
    BytesAreCanonical(bytes[40..HEADER_BYTES]);
    FieldBounds(v);
    MaskBounds(bytes[40..HEADER_BYTES]);
    assert HeaderValues(h, |bytes|) == v;
    assert bytes[..HEADER_BYTES] == bytes[..40] + bytes[40..HEADER_BYTES];
  }

  lemma MaskBounds(bytes: seq<Byte>)
    requires |bytes| == 32
    ensures forall page | page in BitsOf(bytes) :: page < GROUP_PAGES
  {
  }

  lemma FieldBounds(v: seq<nat>)
    requires FieldsFit(v, HeaderWidths())
    ensures |v| == 11 && v[4] < LIMIT && v[5] < LIMIT && v[6] < LIMIT * LIMIT && v[7] < LIMIT * LIMIT && v[10] < LIMIT
  {
    hide Span256, RowWidth;
    Widths();
    var ws := HeaderWidths();
    assert v[4] < Span256(ws[4]) && v[5] < Span256(ws[5]) && v[6] < Span256(ws[6]);
    assert v[7] < Span256(ws[7]) && v[10] < Span256(ws[10]);
  }

  // ----- bitmap files -----

  function KindCode(kind: Kind): nat {
    if kind == Posting then 1 else 2
  }

  /** Start and length of one page, and a reserved byte. */
  function EntryBytes(s: Span): (b: seq<Byte>)
    ensures |b| == 4
  {
    [s.start % 256, s.start / 256 % 256, s.len % 256, 0]
  }

  function DirectoryBytes(ds: seq<Span>): (b: seq<Byte>)
    ensures |b| == 4 * |ds|
  {
    seq(4 * |ds|, j requires 0 <= j < 4 * |ds| => EntryBytes(ds[j / 4])[j % 4])
  }

  function BitmapLength(r: Record): nat {
    HEADER_BYTES + 4 * |r.directory| + |r.payload|
  }

  function BitmapBytes(key: Key, r: Record): (b: seq<Byte>)
    ensures |b| == BitmapLength(r)
  {
    HeaderBytes(Header(key, KindCode(r.kind), 0, r.mask), BitmapLength(r)) + DirectoryBytes(r.directory) + r.payload
  }

  ghost predicate RecordOk(key: Key, r: Record) {
    KeyOk(key) && r.domain == key.domain && Opens(r) && MaskOk(key, r.mask)
  }

  /** The bytes are the stored form of one record under one identity. */
  ghost predicate IsBitmap(bytes: seq<Byte>, key: Key, r: Record) {
    RecordOk(key, r) && bytes == BitmapBytes(key, r)
  }

  /** Spans are packed, so the first `n` take at most 64 bytes each. */
  lemma {:induction false} SpansFit(r: Record, n: nat)
    requires Opens(r) && r.domain <= MAX_OFFSET && n < |r.directory|
    ensures r.directory[n].start <= 64 * n && 0 < r.directory[n].len <= 64
    decreases n
  {
    hide Pages;
    assert SpanOk(r, n);
    if n > 0 {
      SpansFit(r, n - 1);
    }
  }

  /** Every record that opens fits the bound on stored bitmaps. */
  lemma BitmapFits(key: Key, r: Record)
    requires RecordOk(key, r)
    ensures BitmapLength(r) <= MAX_BITMAP_BYTES
  {
    FewPages(r.mask, GROUP_PAGES);
    if r.directory != [] {
      SpansFit(r, |r.directory| - 1);
    }
  }

  lemma EntryAt(ds: seq<Span>, i: nat)
    requires i < |ds|
    ensures DirectoryBytes(ds)[4 * i..4 * i + 4] == EntryBytes(ds[i])
  {
    var b := DirectoryBytes(ds)[4 * i..4 * i + 4];
    forall k | 0 <= k < 4 ensures b[k] == EntryBytes(ds[i])[k] {
      assert (4 * i + k) / 4 == i && (4 * i + k) % 4 == k;
    }
  }

  lemma EntriesMake(b: seq<Byte>, ds: seq<Span>)
    requires |b| == 4 * |ds| && forall i | 0 <= i < |ds| :: b[4 * i..4 * i + 4] == EntryBytes(ds[i])
    ensures DirectoryBytes(ds) == b
  {
    forall j | 0 <= j < |b| ensures DirectoryBytes(ds)[j] == b[j] {
      var i := j / 4;
      assert b[4 * i..4 * i + 4][j % 4] == b[j];
    }
  }

  /** The header of a stored bitmap. */
  lemma BitmapHeader(bytes: seq<Byte>, key: Key, r: Record)
    requires IsBitmap(bytes, key, r)
    ensures ReadHeader(bytes) == Ok(Header(key, KindCode(r.kind), 0, r.mask)) && |bytes| <= MAX_BITMAP_BYTES
    ensures |bytes| == BitmapLength(r) && |r.directory| == |Pages(r.mask)|
    ensures bytes[HEADER_BYTES..HEADER_BYTES + 4 * |r.directory|] == DirectoryBytes(r.directory)
    ensures bytes[HEADER_BYTES + 4 * |r.directory|..] == r.payload
  {
    hide HeaderBytes, DirectoryBytes, ReadHeader, Pages;
    BitmapFits(key, r);
    var h := Header(key, KindCode(r.kind), 0, r.mask);
    var rest := DirectoryBytes(r.directory) + r.payload;
    HeaderReadsBack(h, rest);
    assert bytes == HeaderBytes(h, BitmapLength(r)) + rest;
  }

  function EntrySpan(e: seq<Byte>): Span
    requires |e| == 4
  {
    var low: nat, high: nat := e[0], e[1];
    Span(low + 256 * high, e[2])
  }

  predicate SmallSpan(s: Span) {
    s.start < 65536 && s.len < 256
  }

  lemma SpansSmall(r: Record)
    requires Opens(r) && r.domain <= MAX_OFFSET
    ensures forall i | 0 <= i < |r.directory| :: SmallSpan(r.directory[i])
  {
    FewPages(r.mask, GROUP_PAGES);
    forall i | 0 <= i < |r.directory| ensures SmallSpan(r.directory[i]) {
      SpansFit(r, i);
    }
  }

  lemma EntryOnce(s: Span)
    requires SmallSpan(s)
    ensures s == EntrySpan(EntryBytes(s))
  {
  }

  /** A directory entry read from four bytes, if its reserved byte is zero. */
  lemma EntryReads(e: seq<Byte>)
    requires |e| == 4 && e[3] == 0
    ensures EntryBytes(EntrySpan(e)) == e && SmallSpan(EntrySpan(e))
  {
    var low: int, high: int := e[0], e[1];
    assert (low + 256 * high) % 256 == low && (low + 256 * high) / 256 == high;
  }

  /** The split of a byte string at its header's page count is the only record it can store. */
  lemma SplitIsUnique(bytes: seq<Byte>, h: Header, record: Record)
    requires bytes == BitmapBytes(h.key, record) && HeaderOk(h) && record.mask == h.mask &&
               record.domain == h.key.domain
    requires ReadHeader(bytes) == Ok(h) && |record.directory| == |Pages(h.mask)| && h.kind == KindCode(record.kind)
    requires forall i | 0 <= i < |record.directory| :: SmallSpan(record.directory[i])
    ensures Opens(record) ==> IsBitmap(bytes, h.key, record)
    ensures forall key, other :: IsBitmap(bytes, key, other) ==> key == h.key && other == record && Opens(record)
  {
    hide HeaderBytes, DirectoryBytes, ReadHeader, Pages, Opens, EntryBytes;
    forall key, other | IsBitmap(bytes, key, other) ensures key == h.key && other == record && Opens(record) {
      BitmapHeader(bytes, key, other);
      assert DirectoryBytes(other.directory) == DirectoryBytes(record.directory);
      forall i | 0 <= i < |record.directory| ensures other.directory[i] == record.directory[i] {
        EntryAt(record.directory, i);
        EntryAt(other.directory, i);
        SpansSmall(other);
        EntryOnce(record.directory[i]);
        EntryOnce(other.directory[i]);
      }
      assert other.directory == record.directory;
    }
  }

  /** One byte string stores at most one record. */
  lemma BitmapOnce(bytes: seq<Byte>, k1: Key, r1: Record, k2: Key, r2: Record)
    requires IsBitmap(bytes, k1, r1) && IsBitmap(bytes, k2, r2)
    ensures k1 == k2 && r1 == r2
  {
    hide HeaderBytes, DirectoryBytes, ReadHeader, Pages, EntryBytes;
    BitmapHeader(bytes, k1, r1);
    SpansSmall(r1);
    SplitIsUnique(bytes, Header(k1, KindCode(r1.kind), 0, r1.mask), r1);
  }

  /** Splits the directory into its entries; fails exactly on a nonzero reserved byte. */
  method ReadDirectory(b: seq<Byte>) returns (r: Result<seq<Span>, BitmapError>)
    requires |b| % 4 == 0
    ensures r.Ok? ==> b == DirectoryBytes(r.value) && forall i | 0 <= i < |r.value| :: SmallSpan(r.value[i])
    ensures r.Err? ==> forall ds :: b != DirectoryBytes(ds)
  {
    hide EntryBytes;
    var ds: seq<Span> := [];
    var i := 0;
    while i < |b| / 4
      invariant i <= |b| / 4 && |ds| == i
      invariant forall k | 0 <= k < i :: b[4 * k..4 * k + 4] == EntryBytes(ds[k])
      invariant forall k | 0 <= k < i :: SmallSpan(ds[k])
    {
      var e := b[4 * i..4 * i + 4];
      if e[3] != 0 {
        forall all | b == DirectoryBytes(all) ensures false {
          EntryAt(all, i);
          Reserved(all[i]);
        }
        return Err(InvalidState);
      }
      EntryReads(e);
      ds := ds + [EntrySpan(e)];
      i := i + 1;
    }
    EntriesMake(b, ds);
    r := Ok(ds);
  }

  lemma Reserved(s: Span)
    ensures EntryBytes(s)[3] == 0
  {
  }

  /** An opened bitmap with its identity. */
  datatype View = View(key: Key, bitmap: Opened)

  ghost predicate ViewOk(bytes: seq<Byte>, v: View) {
    IsBitmap(bytes, v.key, v.bitmap.record) && OpenedOk(v.bitmap)
  }

  /** The fields and sizes every stored bitmap shows before its directory is read. */
  lemma AllBitmapHeaders(bytes: seq<Byte>)
    ensures forall key, r :: IsBitmap(bytes, key, r) ==>
              && ReadHeader(bytes) == Ok(Header(key, KindCode(r.kind), 0, r.mask)) && |bytes| <= MAX_BITMAP_BYTES
              && HEADER_BYTES + 4 * |Pages(r.mask)| <= |bytes|
              && bytes[HEADER_BYTES..HEADER_BYTES + 4 * |Pages(r.mask)|] == DirectoryBytes(r.directory)
  {
    hide IsBitmap, ReadHeader, Pages, DirectoryBytes;
    forall key, r | IsBitmap(bytes, key, r)
      ensures ReadHeader(bytes) == Ok(Header(key, KindCode(r.kind), 0, r.mask)) && |bytes| <= MAX_BITMAP_BYTES
      ensures HEADER_BYTES + 4 * |Pages(r.mask)| <= |bytes|
      ensures bytes[HEADER_BYTES..HEADER_BYTES + 4 * |Pages(r.mask)|] == DirectoryBytes(r.directory)
    {
      BitmapHeader(bytes, key, r);
    }
  }

  /** Header, directory and payload put together are the bytes they were taken from. */
  lemma SplitJoins(bytes: seq<Byte>, h: Header, record: Record, body: nat)
    requires ReadHeader(bytes) == Ok(h) && h.count == 0 && HEADER_BYTES <= body <= |bytes|
    requires record.mask == h.mask && h.kind == KindCode(record.kind)
    requires bytes[HEADER_BYTES..body] == DirectoryBytes(record.directory) && bytes[body..] == record.payload
    ensures HeaderOk(h) && bytes == BitmapBytes(h.key, record)
  {
    hide ReadHeader, HeaderBytes, Pages, DirectoryBytes, MaskOk;
    HeaderIsCanonical(bytes);
    assert |bytes| == BitmapLength(record);
    assert bytes == bytes[..HEADER_BYTES] + bytes[HEADER_BYTES..body] + bytes[body..];
  }

  /** Accepts exactly the stored bitmaps, without decoding any offset payload. */
  method OpenBitmap(bytes: seq<Byte>) returns (r: Result<View, BitmapError>)
    ensures r.Ok? ==> ViewOk(bytes, r.value)
    ensures forall key, record :: IsBitmap(bytes, key, record) ==>
              r.Ok? && r.value.key == key && r.value.bitmap.record == record
  {
    hide IsBitmap, ReadHeader, OpenedOk, Opens, RecordOk, Pages, DirectoryBytes, BitmapBytes, MaskOk, KeyOk, SmallSpan;
    AllBitmapHeaders(bytes);
    if |bytes| > MAX_BITMAP_BYTES {
      return Err(InvalidState);
    }
    var header := ReadHeader(bytes);
    if header.Err? {
      return Err(InvalidState);
    }
    var h := header.value;
    if h.kind == MEMBERS || h.count != 0 {
      return Err(InvalidState);
    }
    var body := HEADER_BYTES + 4 * |Pages(h.mask)|;
    if body > |bytes| {
      return Err(InvalidState);
    }
    var directory := ReadDirectory(bytes[HEADER_BYTES..body]);
    if directory.Err? {
      return Err(InvalidState);
    }
    HeaderIsCanonical(bytes);
    var record := Record(if h.kind == 1 then Posting else Liveness, h.key.domain, h.mask, directory.value,
        bytes[body..]);
    SplitJoins(bytes, h, record, body);
    SplitIsUnique(bytes, h, record);
    MaskPages(h);
    var checked := Open(record);
    if checked.Err? {
      return Err(InvalidState);
    }
    r := Ok(View(h.key, checked.value));
  }

  lemma MaskPages(h: Header)
    requires HeaderOk(h)
    ensures forall page | page in h.mask :: page < GROUP_PAGES
  {
  }

  /** Writes a bitmap under an identity, or fails on a page or offset outside it. */
  method EncodeBitmap(key: Key, kind: Kind, m: map<nat, set<nat>>) returns (r: Result<seq<Byte>, BitmapError>)
    requires KeyOk(key) && forall page | page in m :: page < GROUP_PAGES
    ensures r.Ok? <==> Encodable(m, key.domain) && MaskOk(key, m.Keys)
    ensures r.Ok? ==> IsBitmap(r.value, key, RecordOf(kind, key.domain, m))
  {
    hide Encodable, RecordOf, Opens, HeaderBytes, DirectoryBytes;
    if key.base == LAST_BASE && 255 in m {
      return Err(InvalidState);
    }
    var written := Write(kind, key.domain, m);
    if written.Err? {
      return Err(InvalidState);
    }
    WrittenOpens(kind, key.domain, m);
    RecordMask(kind, key.domain, m);
    r := Ok(BitmapBytes(key, written.value));
  }

  /** Stored postings that open and decode are byte for byte what their contents are written as. */
  lemma PostingIsCanonical(bytes: seq<Byte>, key: Key, r: Record)
    requires IsBitmap(bytes, key, r) && r.kind == Posting && AllDecode(r)
    ensures bytes == BitmapBytes(key, RecordOf(Posting, key.domain, Contents(r)))
  {
    hide HeaderBytes, DirectoryBytes, Contents, AllDecode, Opens, RecordOf;
    ValidIsContents(r);
  }
}
