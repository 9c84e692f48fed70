/**
 The record format of page and offset bitmaps: a page mask, one directory entry per present
 page found by rank, and a packed payload of offset bytes.
 */
module RankBitmap {
  import opened Outcomes
  import opened Varints

  const GROUP_PAGES: nat := 256
  const WORD: nat := 64

  datatype Kind = Posting | Liveness

  /** One directory entry: where a page's bytes start in the payload and how many there are. */
  datatype Span = Span(start: nat, len: nat)

  datatype Record = Record(kind: Kind, domain: nat, mask: set<nat>, directory: seq<Span>, payload: seq<Byte>)

  datatype BitmapError = InvalidState

  // ----- bits of a byte -----

  /** The number whose bit `k` says whether `base + k` is in the set, for `n` bits. */
  function Packed(bits: set<nat>, base: nat, n: nat): nat
    decreases n
  {
    if n == 0 then 0 else (if base in bits then 1 else 0) + 2 * Packed(bits, base + 1, n - 1)
  }

  predicate Bit(v: nat, k: nat)
    decreases k
  {
    if k == 0 then v % 2 == 1 else Bit(v / 2, k - 1)
  }

  function Shift(v: nat, d: nat): nat
    decreases d
  {
    if d == 0 then v else Shift(v / 2, d - 1)
  }

  function Power(n: nat): nat {
    if n == 0 then 1 else 2 * Power(n - 1)
  }

  lemma {:induction false} PackedBits(bits: set<nat>, base: nat, n: nat, k: nat)
    requires k < n
    ensures Bit(Packed(bits, base, n), k) <==> base + k in bits
    decreases n
  {
    hide Packed, Bit;
    PackedStep(bits, base, n);
    BitStep(Packed(bits, base, n), k);
    if k > 0 {
      PackedBits(bits, base + 1, n - 1, k - 1);
    }
  }

  lemma PackedStep(bits: set<nat>, base: nat, n: nat)
    requires n > 0
    ensures Packed(bits, base, n) / 2 == Packed(bits, base + 1, n - 1)
    ensures Packed(bits, base, n) % 2 == if base in bits then 1 else 0
  {
    var rest := Packed(bits, base + 1, n - 1);
    assert Packed(bits, base, n) == (if base in bits then 1 else 0) + 2 * rest;
  }

  lemma BitStep(v: nat, k: nat)
    ensures Bit(v, k) <==> if k == 0 then v % 2 == 1 else Bit(v / 2, k - 1)
  {
  }

  lemma {:induction false} PackedSmall(bits: set<nat>, base: nat, n: nat)
    ensures Packed(bits, base, n) < Power(n)
    decreases n
  {
    if n > 0 {
      PackedSmall(bits, base + 1, n - 1);
    }
  }

  /** A number below 2^n is packed from its own bits. */
  lemma {:induction false} BitsPack(v: nat, bits: set<nat>, base: nat, n: nat)
    requires v < Power(n) && forall k: nat | k < n :: Bit(v, k) <==> base + k in bits
    ensures Packed(bits, base, n) == v
    decreases n
  {
    if n > 0 {
      assert Bit(v, 0) <==> base + 0 in bits;
      forall k: nat | k < n - 1 ensures Bit(v / 2, k) <==> base + 1 + k in bits {
        assert Bit(v, k + 1) <==> base + (k + 1) in bits;
      }
      BitsPack(v / 2, bits, base + 1, n - 1);
    }
  }

  lemma {:induction false} BitShift(v: nat, d: nat, k: nat)
    ensures Bit(Shift(v, d), k) == Bit(v, d + k)
    decreases d
  {
    if d > 0 {
      BitShift(v / 2, d - 1, k);
    }
  }

  lemma {:induction false} ShiftSmall(v: nat, d: nat, n: nat)
    requires d <= n && v < Power(n)
    ensures Shift(v, d) < Power(n - d)
    decreases d
  {
    if d > 0 {
      ShiftSmall(v / 2, d - 1, n - 1);
    }
  }

  lemma {:induction false} NoBit(k: nat)
    ensures !Bit(0, k)
    decreases k
  {
    if k > 0 {
      NoBit(k - 1);
    }
  }

  lemma {:induction false} SomeBit(v: nat, n: nat) returns (k: nat)
    requires 0 < v < Power(n)
    ensures k < n && Bit(v, k)
    decreases n
  {
    if v % 2 == 1 {
      k := 0;
    } else {
      k := SomeBit(v / 2, n - 1);
      k := k + 1;
    }
  }

  /** Shifting to zero means no higher bit is set. */
  lemma ShiftZero(v: nat, d: nat, n: nat)
    requires v < Power(n) && d <= n
    ensures Shift(v, d) == 0 <==> forall k: nat | d <= k < n :: !Bit(v, k)
  {
    hide Bit, Shift, Power;
    ShiftSmall(v, d, n);
    if Shift(v, d) == 0 {
      forall k: nat | d <= k < n ensures !Bit(v, k) {
        BitShift(v, d, k - d);
        NoBit(k - d);
      }
    } else {
      var k := SomeBit(Shift(v, d), n - d);
      BitShift(v, d, k);
    }
  }

  function ByteAt(bits: set<nat>, j: nat): (b: Byte) {
    PackedSmall(bits, 8 * j, 8);
    assert Power(8) == 2 * 2 * 2 * 2 * 2 * 2 * 2 * 2 by {
      assert Power(3) == 8 && Power(6) == 8 * Power(3);
    }
    Packed(bits, 8 * j, 8)
  }

  // ----- the bytes of one page -----

  function PageBytes(bits: set<nat>, len: nat): (r: seq<Byte>)
    ensures |r| == len
  {
    seq(len, j requires 0 <= j < len => ByteAt(bits, j))
  }

  function BitsOf(bytes: seq<Byte>): set<nat> {
    set x: nat | 0 <= x < 8 * |bytes| && Bit(bytes[x / 8], x % 8)
  }

  lemma ByteBits(bits: set<nat>, j: nat, k: nat)
    requires k < 8
    ensures Bit(ByteAt(bits, j), k) <==> 8 * j + k in bits
  {
    hide Packed, Bit;
    PackedBits(bits, 8 * j, 8, k);
  }

  /** What is packed is unpacked. */
  lemma BytesReadBack(bits: set<nat>, len: nat)
    requires forall x | x in bits :: x < 8 * len
    ensures BitsOf(PageBytes(bits, len)) == bits
  {
    hide ByteAt, Bit;
    forall x: nat ensures x in BitsOf(PageBytes(bits, len)) <==> x in bits {
      ByteBits(bits, x / 8, x % 8);
    }
  }

  lemma ByteRange()
    ensures Power(8) == 256
  {
    assert Power(4) == 16;
  }

  /** What is unpacked packs to the same bytes. */
  lemma BytesAreCanonical(bytes: seq<Byte>)
    ensures PageBytes(BitsOf(bytes), |bytes|) == bytes
  {
    hide Bit, Power, Packed;
    var bits := BitsOf(bytes);
    forall j | 0 <= j < |bytes| ensures ByteAt(bits, j) == bytes[j] {
      ByteRange();
      forall k: nat | k < 8 ensures Bit(bytes[j], k) <==> 8 * j + k in bits {
        assert (8 * j + k) / 8 == j && (8 * j + k) % 8 == k;
      }
      BitsPack(bytes[j], bits, 8 * j, 8);
    }
  }

  /** One more than the highest bit below `n`. */
  function Top(bits: set<nat>, n: nat): (t: nat)
    ensures t <= n && (t > 0 ==> t - 1 in bits) && forall x | x in bits && x < n :: x < t
  {
    if n == 0 then 0 else if n - 1 in bits then n else Top(bits, n - 1)
  }

  /** The bytes a page needs. */
  function Width(bits: set<nat>, domain: nat): nat {
    (Top(bits, domain) + 7) / 8
  }

  // ----- rank -----

  /** The pages below `n`, in order. */
  function PagesBelow(mask: set<nat>, n: nat): seq<nat> {
    if n == 0 then [] else PagesBelow(mask, n - 1) + if n - 1 in mask then [n - 1] else []
  }

  lemma {:induction false} PagesBelowMembers(mask: set<nat>, n: nat)
    ensures forall x: nat :: x in PagesBelow(mask, n) <==> x in mask && x < n
    ensures forall i, j | 0 <= i < j < |PagesBelow(mask, n)| :: PagesBelow(mask, n)[i] < PagesBelow(mask, n)[j]
    decreases n
  {
    if n > 0 {
      PagesBelowMembers(mask, n - 1);
      var ps := PagesBelow(mask, n - 1);
      forall i | 0 <= i < |ps| ensures ps[i] < n - 1 {
        assert ps[i] in ps;
      }
    }
  }

  /** A page's rank is its place among all pages. */
  lemma {:induction false} RankIsPlace(mask: set<nat>, page: nat, n: nat)
    requires page in mask && page < n
    ensures |PagesBelow(mask, page)| < |PagesBelow(mask, n)| && PagesBelow(mask, n)[|PagesBelow(mask, page)|] == page
    decreases n
  {
    if page < n - 1 {
      RankIsPlace(mask, page, n - 1);
    }
  }

  /** The number of pages before a page. */
  function Rank(mask: set<nat>, page: nat): nat {
    |PagesBelow(mask, page)|
  }

  /** Counts the pages from `low` to `high`: the population count of part of a mask word. */
  method CountPages(mask: set<nat>, low: nat, high: nat) returns (n: nat)
    requires low <= high
    ensures n + |PagesBelow(mask, low)| == |PagesBelow(mask, high)|
  {
    n := 0;
    var p := low;
    while p < high
      invariant low <= p <= high && n + |PagesBelow(mask, low)| == |PagesBelow(mask, p)|
    {
      if p in mask {
        n := n + 1;
      }
      p := p + 1;
    }
  }

  /** The running population counts of the mask words. */
  method Prefixes(mask: set<nat>) returns (prefixes: seq<nat>)
    ensures PrefixesOf(mask, prefixes)
  {
    prefixes := [0];
    var w := 1;
    while w < 4
      invariant 1 <= w <= 4 && |prefixes| == w && forall v | 0 <= v < w :: prefixes[v] == |PagesBelow(mask, v * WORD)|
    {
      var n := CountPages(mask, (w - 1) * WORD, w * WORD);
      prefixes := prefixes + [prefixes[w - 1] + n];
      w := w + 1;
    }
  }

  /** A word's running count plus the population count below the page within its word. */
  method RankOf(mask: set<nat>, prefixes: seq<nat>, page: nat) returns (rank: nat)
    requires PrefixesOf(mask, prefixes) && page in mask && page < GROUP_PAGES
    ensures rank == Rank(mask, page)
    ensures rank < |Pages(mask)| && Pages(mask)[rank] == page
  {
    var word := page / WORD;
    var lower := CountPages(mask, word * WORD, page);
    rank := prefixes[word] + lower;
    RankIsPlace(mask, page, GROUP_PAGES);
  }

  // ----- records -----

  /** What can be written: nonempty pages of the group with offsets inside the domain. */
  ghost predicate Encodable(m: map<nat, set<nat>>, domain: nat) {
    forall page | page in m :: page < GROUP_PAGES && m[page] != {} && forall x | x in m[page] :: x < domain
  }

  predicate AllIn(m: map<nat, set<nat>>, pages: seq<nat>) {
    forall i | 0 <= i < |pages| :: pages[i] in m
  }

  /** Directory and payload of some pages, one after another. */
  function Lay(m: map<nat, set<nat>>, pages: seq<nat>, domain: nat): (r: (seq<Span>, seq<Byte>))
    requires AllIn(m, pages)
    ensures |r.0| == |pages|
  {
    if pages == [] then ([], [])
    else
      var page := pages[|pages| - 1];
      var (d, b) := Lay(m, pages[..|pages| - 1], domain);
      var w := Width(m[page], domain);
      (d + [Span(|b|, w)], b + PageBytes(m[page], w))
  }

  function Pages(mask: set<nat>): seq<nat> {
    PagesBelow(mask, GROUP_PAGES)
  }

  lemma PagesIn(mask: set<nat>)
    ensures forall i | 0 <= i < |Pages(mask)| :: Pages(mask)[i] in mask && Pages(mask)[i] < GROUP_PAGES
  {
    PagesBelowMembers(mask, GROUP_PAGES);
    forall i | 0 <= i < |Pages(mask)| ensures Pages(mask)[i] in mask && Pages(mask)[i] < GROUP_PAGES {
      assert Pages(mask)[i] in Pages(mask);
    }
  }

  function RecordOf(kind: Kind, domain: nat, m: map<nat, set<nat>>): Record {
    PagesIn(m.Keys);
    var (d, b) := Lay(m, Pages(m.Keys), domain);
    Record(kind, domain, m.Keys, d, b)
  }

  predicate SpanOk(r: Record, i: nat)
    requires i < |r.directory|
  {
    && r.directory[i].start == (if i == 0 then 0 else r.directory[i - 1].start + r.directory[i - 1].len)
    && 0 < r.directory[i].len <= (r.domain + 7) / 8
  }

  ghost predicate Opens(r: Record) {
    && (forall page | page in r.mask :: page < GROUP_PAGES)
    && |r.directory| == |Pages(r.mask)|
    && (forall i | 0 <= i < |r.directory| :: SpanOk(r, i))
    && (if r.directory == [] then 0 else r.directory[|r.directory| - 1].start + r.directory[|r.directory| - 1].len) ==
         |r.payload|
  }

  /** The running counts a rank starts from. */
  ghost predicate PrefixesOf(mask: set<nat>, prefixes: seq<nat>) {
    |prefixes| == 4 && forall w | 0 <= w < 4 :: prefixes[w] == |PagesBelow(mask, w * WORD)|
  }

  /** A checked record with the running counts of its mask words. */
  datatype Opened = Opened(record: Record, prefixes: seq<nat>)

  ghost predicate OpenedOk(o: Opened) {
    Opens(o.record) && PrefixesOf(o.record.mask, o.prefixes)
  }

  /** Checks that the directory is packed and ends with the payload, and counts the mask words. */
  method Open(r: Record) returns (o: Result<Opened, BitmapError>)
    requires forall page | page in r.mask :: page < GROUP_PAGES
    requires |r.directory| == |Pages(r.mask)|
    ensures o.Ok? <==> Opens(r)
    ensures o.Ok? ==> o.value.record == r && OpenedOk(o.value)
  {
    hide Pages, PagesBelow;
    var end := 0;
    var i := 0;
    while i < |r.directory|
      invariant i <= |r.directory| && forall k | 0 <= k < i :: SpanOk(r, k)
      invariant end == if i == 0 then 0 else r.directory[i - 1].start + r.directory[i - 1].len
    {
      var s := r.directory[i];
      if s.start != end || s.len == 0 || s.len > (r.domain + 7) / 8 {
        assert !SpanOk(r, i);
        return Err(InvalidState);
      }
      end := end + s.len;
      i := i + 1;
    }
    if end != |r.payload| {
      return Err(InvalidState);
    }
    var prefixes := Prefixes(r.mask);
    o := Ok(Opened(r, prefixes));
  }

  lemma {:induction false} SpanFits(r: Record, i: nat)
    requires Opens(r) && i < |r.directory|
    ensures r.directory[i].start + r.directory[i].len <= |r.payload| && r.directory[i].len > 0
    decreases |r.directory| - i
  {
    assert SpanOk(r, i);
    if i + 1 < |r.directory| {
      SpanFits(r, i + 1);
      assert SpanOk(r, i + 1);
    }
  }

  /** One page's offsets, from its bytes. */
  function Decode(kind: Kind, domain: nat, bytes: seq<Byte>): Result<set<nat>, BitmapError>
    requires bytes != []
  {
    var last := bytes[|bytes| - 1];
    if (kind == Posting && last == 0) || (|bytes| * 8 > domain && Shift(last, domain % 8) != 0) then Err(InvalidState)
    else Ok(BitsOf(bytes))
  }

  function BytesOf(r: Record, i: nat): seq<Byte>
    requires i < |r.directory| && r.directory[i].start + r.directory[i].len <= |r.payload|
  {
    r.payload[r.directory[i].start..r.directory[i].start + r.directory[i].len]
  }

  /** The bytes of a present page. */
  function Stored(r: Record, page: nat): (b: seq<Byte>)
    requires Opens(r) && page in r.mask
    ensures b != [] && |b| <= (r.domain + 7) / 8
  {
    RankIsPlace(r.mask, page, GROUP_PAGES);
    SpanFits(r, Rank(r.mask, page));
    assert SpanOk(r, Rank(r.mask, page));
    BytesOf(r, Rank(r.mask, page))
  }

  /** Every page with the offsets its bytes hold. */
  function Contents(r: Record): map<nat, set<nat>>
    requires Opens(r)
  {
    map page | page in r.mask :: BitsOf(Stored(r, page))
  }

  /** Selects one page by rank and decodes only its bytes. */
  method Offsets(o: Opened, page: nat) returns (bits: Result<set<nat>, BitmapError>)
    requires OpenedOk(o)
    ensures page !in o.record.mask ==> bits == Ok({})
    ensures page in o.record.mask ==> bits == Decode(o.record.kind, o.record.domain, Stored(o.record, page))
  {
    hide Decode, PagesBelow;
    var r := o.record;
    if page !in r.mask {
      return Ok({});
    }
    var rank := RankOf(r.mask, o.prefixes, page);
    SpanFits(r, rank);
    bits := Decode(r.kind, r.domain, BytesOf(r, rank));
  }

  // ----- writing and reading -----

  lemma NextPage(m: map<nat, set<nat>>, p: nat, domain: nat)
    requires AllIn(m, PagesBelow(m.Keys, p))
    ensures AllIn(m, PagesBelow(m.Keys, p + 1))
    ensures p !in m ==> Lay(m, PagesBelow(m.Keys, p + 1), domain) == Lay(m, PagesBelow(m.Keys, p), domain)
    ensures p in m ==>
              var (d, b) := Lay(m, PagesBelow(m.Keys, p), domain);
              var w := Width(m[p], domain);
              Lay(m, PagesBelow(m.Keys, p + 1), domain) == (d + [Span(|b|, w)], b + PageBytes(m[p], w))
  {
    hide Width, PageBytes;
    var before := PagesBelow(m.Keys, p);
    if p in m {
      assert PagesBelow(m.Keys, p + 1) == before + [p];
      assert (before + [p])[..|before|] == before;
    } else {
      assert PagesBelow(m.Keys, p + 1) == before + [] == before;
    }
  }

  /** Visits the pages in order and appends each one's span and bytes. */
  method Write(kind: Kind, domain: nat, m: map<nat, set<nat>>) returns (r: Result<Record, BitmapError>)
    requires forall page | page in m :: page < GROUP_PAGES
    ensures r.Ok? <==> Encodable(m, domain)
    ensures r.Ok? ==> r.value == RecordOf(kind, domain, m)
  {
    hide Width, PageBytes, PagesBelow, Lay;
    var directory: seq<Span> := [];
    var payload: seq<Byte> := [];
    var p := 0;
    NoPages(m, domain);
    while p < GROUP_PAGES
      invariant p <= GROUP_PAGES
      invariant forall page | page in m && page < p :: m[page] != {} && forall x | x in m[page] :: x < domain
      invariant AllIn(m, PagesBelow(m.Keys, p))
      invariant (directory, payload) == Lay(m, PagesBelow(m.Keys, p), domain)
    {
      NextPage(m, p, domain);
      if p in m {
        if m[p] == {} || exists x :: x in m[p] && x >= domain {
          return Err(InvalidState);
        }
        var w := Width(m[p], domain);
        directory := directory + [Span(|payload|, w)];
        payload := payload + PageBytes(m[p], w);
      }
      p := p + 1;
    }
    return Ok(Record(kind, domain, m.Keys, directory, payload));
  }

  lemma NoPages(m: map<nat, set<nat>>, domain: nat)
    ensures PagesBelow(m.Keys, 0) == [] && Lay(m, PagesBelow(m.Keys, 0), domain) == ([], [])
  {
  }

  /** A page's bytes decode to its offsets. */
  lemma PageDecodes(kind: Kind, domain: nat, bits: set<nat>)
    requires bits != {} && forall x | x in bits :: x < domain
    ensures 0 < Width(bits, domain) <= (domain + 7) / 8
    ensures Decode(kind, domain, PageBytes(bits, Width(bits, domain))) == Ok(bits)
  {
    hide BitsOf, Bit, Shift, ByteAt;
    var t := Top(bits, domain);
    var some :| some in bits;
    assert t > 0 && t - 1 in bits;
    var w := Width(bits, domain);
    var bytes := PageBytes(bits, w);
    BytesReadBack(bits, w);
    var last := bytes[w - 1];
    ByteBits(bits, w - 1, (t - 1) % 8);
    assert 8 * (w - 1) + (t - 1) % 8 == t - 1;
    NoBit((t - 1) % 8);
    if w * 8 > domain {
      ByteRange();
      ShiftZero(last, domain % 8, 8);
      forall k: nat | domain % 8 <= k < 8 ensures !Bit(last, k) {
        ByteBits(bits, w - 1, k);
        assert 8 * (w - 1) + k >= domain;
      }
    }
  }

  /** Each laid page has its span and its bytes. */
  lemma {:induction false} LaidPage(m: map<nat, set<nat>>, pages: seq<nat>, domain: nat, i: nat)
    requires AllIn(m, pages) && i < |pages|
    ensures var (d, b) := Lay(m, pages, domain);
            && d[i].len == Width(m[pages[i]], domain)
            && d[i].start == (if i == 0 then 0 else d[i - 1].start + d[i - 1].len)
            && d[i].start + d[i].len <= |b| && b[d[i].start..d[i].start + d[i].len] == PageBytes(m[pages[i]], d[i].len)
            && (i == |pages| - 1 ==> d[i].start + d[i].len == |b|)
    decreases |pages|
  {
    hide PageBytes, Width;
    var init := pages[..|pages| - 1];
    var (d, b) := Lay(m, pages, domain);
    var (d0, b0) := Lay(m, init, domain);
    var page := pages[|pages| - 1];
    var w := Width(m[page], domain);
    assert d == d0 + [Span(|b0|, w)] && b == b0 + PageBytes(m[page], w);
    if i < |init| {
      LaidPage(m, init, domain, i);
      assert d[i] == d0[i] && (i > 0 ==> d[i - 1] == d0[i - 1]);
      assert b[d0[i].start..d0[i].start + d0[i].len] == b0[d0[i].start..d0[i].start + d0[i].len];
    } else {
      if init != [] {
        LaidPage(m, init, domain, |init| - 1);
      }
      assert d[i] == Span(|b0|, w) && (i > 0 ==> d[i - 1] == d0[i - 1]);
      assert b[|b0|..|b0| + w] == PageBytes(m[page], w);
    }
  }

  /** A written record opens, and every page reads back as it was given. */
  lemma WrittenOpens(kind: Kind, domain: nat, m: map<nat, set<nat>>)
    requires Encodable(m, domain)
    ensures Opens(RecordOf(kind, domain, m))
  {
    hide Pages, Width, PageBytes;
    var r := RecordOf(kind, domain, m);
    var pages := Pages(m.Keys);
    PagesIn(m.Keys);
    forall i | 0 <= i < |r.directory| ensures SpanOk(r, i) {
      LaidPage(m, pages, domain, i);
      PageDecodes(kind, domain, m[pages[i]]);
    }
    if pages != [] {
      LaidPage(m, pages, domain, |pages| - 1);
    }
  }

  lemma WrittenReadsBack(kind: Kind, domain: nat, m: map<nat, set<nat>>, i: nat)
    requires Encodable(m, domain) && i < |Pages(m.Keys)|
    ensures var r := RecordOf(kind, domain, m);
            && i < |r.directory| && r.directory[i].start + r.directory[i].len <= |r.payload| && r.directory[i].len > 0
            && Pages(m.Keys)[i] in m && Decode(kind, domain, BytesOf(r, i)) == Ok(m[Pages(m.Keys)[i]])
  {
    hide Pages, Width, PageBytes, Decode;
    PagesIn(m.Keys);
    LaidPage(m, Pages(m.Keys), domain, i);
    PageDecodes(kind, domain, m[Pages(m.Keys)[i]]);
  }

  // ----- a valid posting record is canonical -----

  /** The bytes of a page that decodes are those its offsets would be written as. */
  lemma DecodedIsCanonical(domain: nat, bytes: seq<Byte>)
    requires bytes != [] && |bytes| <= (domain + 7) / 8 && Decode(Posting, domain, bytes).Ok?
    ensures var bits := BitsOf(bytes);
            bits != {} && (forall x | x in bits :: x < domain) && Width(bits, domain) == |bytes| &&
                PageBytes(bits, |bytes|) == bytes
  {
    hide Bit, Shift, PageBytes, Power;
    var bits := BitsOf(bytes);
    var w := |bytes|;
    var last := bytes[w - 1];
    BytesAreCanonical(bytes);
    ByteRange();
    var k := SomeBit(last, 8);
    var x := 8 * (w - 1) + k;
    assert x / 8 == w - 1 && x % 8 == k;
    assert x in bits;
    if w * 8 > domain {
      ShiftZero(last, domain % 8, 8);
      assert Shift(last, domain % 8) == 0;
      assert forall k: nat | domain % 8 <= k < 8 :: !Bit(last, k);
      forall y | y in bits ensures y < domain {
        assert Bit(bytes[y / 8], y % 8) && domain / 8 == w - 1;
        if y / 8 == w - 1 {
          var k: nat := y % 8;
          assert Bit(last, k);
          assert k < domain % 8;
        }
      }
    }
    assert x < Top(bits, domain);
    TopWithin(bits, domain, 8 * w);
  }

  lemma TopWithin(bits: set<nat>, domain: nat, high: nat)
    requires forall x | x in bits :: x < high
    ensures Top(bits, domain) <= high
  {
  }

  ghost predicate AllDecode(r: Record)
    requires Opens(r)
  {
    forall i | 0 <= i < |r.directory| :: r.directory[i].start + r.directory[i].len <= |r.payload| &&
        r.directory[i].len > 0 && Decode(r.kind, r.domain, BytesOf(r, i)).Ok?
  }

  /** The map a valid record stands for. */
  ghost predicate StandsFor(r: Record, m: map<nat, set<nat>>)
    requires Opens(r) && AllDecode(r)
  {
    && m.Keys == r.mask
    && forall i | 0 <= i < |r.directory| :: Pages(r.mask)[i] in m && m[Pages(r.mask)[i]] == BitsOf(BytesOf(r, i))
  }

  lemma EveryPageListed(mask: set<nat>, page: nat)
    requires page in mask && page < GROUP_PAGES
    ensures exists i :: 0 <= i < |Pages(mask)| && Pages(mask)[i] == page
  {
    PagesBelowMembers(mask, GROUP_PAGES);
    assert page in Pages(mask);
  }

  lemma StandsEncodable(r: Record, m: map<nat, set<nat>>)
    requires r.kind == Posting && Opens(r) && AllDecode(r) && StandsFor(r, m)
    ensures Encodable(m, r.domain)
  {
    hide Pages, Decode, BitsOf;
    forall page | page in m ensures page < GROUP_PAGES && m[page] != {} && forall x | x in m[page] :: x < r.domain {
      EveryPageListed(r.mask, page);
      var i :| 0 <= i < |Pages(r.mask)| && Pages(r.mask)[i] == page;
      assert SpanOk(r, i);
      DecodedIsCanonical(r.domain, BytesOf(r, i));
    }
  }

  /** Laying the first `n` pages gives the first `n` spans and their bytes. */
  lemma {:induction false} PrefixRelaid(r: Record, m: map<nat, set<nat>>, n: nat)
    requires r.kind == Posting && Opens(r) && AllDecode(r) && StandsFor(r, m) && n <= |r.directory|
    ensures AllIn(m, Pages(r.mask)[..n])
    ensures var (d, b) := Lay(m, Pages(r.mask)[..n], r.domain);
            && d == r.directory[..n] && |b| <= |r.payload| && b == r.payload[..|b|]
            && |b| == (if n == 0 then 0 else r.directory[n - 1].start + r.directory[n - 1].len)
    decreases n
  {
    hide Pages, Decode, BitsOf, Width, PageBytes;
    if n > 0 {
      PrefixRelaid(r, m, n - 1);
      var pages := Pages(r.mask)[..n];
      assert pages[..n - 1] == Pages(r.mask)[..n - 1];
      assert SpanOk(r, n - 1);
      DecodedIsCanonical(r.domain, BytesOf(r, n - 1));
      var s := r.directory[n - 1];
      assert r.payload[..s.start + s.len] == r.payload[..s.start] + BytesOf(r, n - 1);
      assert r.directory[..n] == r.directory[..n - 1] + [s];
    }
  }

  /** A posting record that passes every check is the encoding of what it stands for. */
  lemma ValidIsWritten(r: Record, m: map<nat, set<nat>>)
    requires r.kind == Posting && Opens(r) && AllDecode(r) && StandsFor(r, m)
    ensures Encodable(m, r.domain) && RecordOf(Posting, r.domain, m) == r
  {
    hide Pages, Decode, BitsOf, Width, PageBytes, Lay;
    StandsEncodable(r, m);
    PrefixRelaid(r, m, |r.directory|);
    assert Pages(r.mask)[..|r.directory|] == Pages(r.mask);
    assert r.directory[..|r.directory|] == r.directory && r.payload[..|r.payload|] == r.payload;
  }

  /** Directory place and page name the same bytes. */
  lemma StoredAt(r: Record, i: nat)
    requires Opens(r) && i < |r.directory|
    ensures Pages(r.mask)[i] in r.mask && r.directory[i].start + r.directory[i].len <= |r.payload|
    ensures Rank(r.mask, Pages(r.mask)[i]) == i && Stored(r, Pages(r.mask)[i]) == BytesOf(r, i)
  {
    var pages := Pages(r.mask);
    PagesIn(r.mask);
    SpanFits(r, i);
    RankIsPlace(r.mask, pages[i], GROUP_PAGES);
    PagesBelowMembers(r.mask, GROUP_PAGES);
    var k := Rank(r.mask, pages[i]);
    assert pages[k] == pages[i];
  }

  /** A record stands for its contents. */
  lemma ContentsStand(r: Record)
    requires Opens(r) && AllDecode(r)
    ensures StandsFor(r, Contents(r))
  {
    hide Stored, BytesOf, Pages, BitsOf, Decode;
    forall i | 0 <= i < |r.directory|
      ensures Pages(r.mask)[i] in Contents(r) && Contents(r)[Pages(r.mask)[i]] == BitsOf(BytesOf(r, i))
    {
      StoredAt(r, i);
    }
  }

  /** What is written is what the record holds. */
  lemma WrittenContents(kind: Kind, domain: nat, m: map<nat, set<nat>>)
    requires Encodable(m, domain)
    ensures Opens(RecordOf(kind, domain, m)) && Contents(RecordOf(kind, domain, m)) == m
  {
    hide Stored, BytesOf, Pages, BitsOf, RecordOf;
    WrittenOpens(kind, domain, m);
    var r := RecordOf(kind, domain, m);
    RecordMask(kind, domain, m);
    forall page | page in m ensures Contents(r)[page] == m[page] {
      EveryPageListed(m.Keys, page);
      var i :| 0 <= i < |Pages(m.Keys)| && Pages(m.Keys)[i] == page;
      WrittenReadsBack(kind, domain, m, i);
      StoredAt(r, i);
    }
  }

  lemma RecordMask(kind: Kind, domain: nat, m: map<nat, set<nat>>)
    ensures var r := RecordOf(kind, domain, m); r.kind == kind && r.domain == domain && r.mask == m.Keys
  {
  }

  /** A posting record that opens and fully decodes is the one its contents are written as. */
  lemma ValidIsContents(r: Record)
    requires r.kind == Posting && Opens(r) && AllDecode(r)
    ensures Encodable(Contents(r), r.domain) && RecordOf(Posting, r.domain, Contents(r)) == r
  {
    hide *;
    ContentsStand(r);
    ValidIsWritten(r, Contents(r));
  }

  /** A liveness page decodes exactly when it has no bit outside the domain. */
  lemma LivenessDecodes(domain: nat, bytes: seq<Byte>)
    requires bytes != [] && |bytes| <= (domain + 7) / 8
    ensures Decode(Liveness, domain, bytes).Ok? <==> forall x | x in BitsOf(bytes) :: x < domain
  {
    hide Bit, Shift, Power;
    var bits, w, last := BitsOf(bytes), |bytes|, bytes[|bytes| - 1];
    if w * 8 > domain {
      ByteRange();
      ShiftZero(last, domain % 8, 8);
      assert domain / 8 == w - 1;
      if Shift(last, domain % 8) == 0 {
        assert forall k: nat | domain % 8 <= k < 8 :: !Bit(last, k);
        forall y | y in bits ensures y < domain {
          assert Bit(bytes[y / 8], y % 8);
          if y / 8 == w - 1 {
            var k: nat := y % 8;
            assert Bit(last, k);
            assert k < domain % 8;
          }
        }
      } else {
        var k: nat :| domain % 8 <= k < 8 && Bit(last, k);
        var y := 8 * (w - 1) + k;
        assert y / 8 == w - 1 && y % 8 == k;
        assert y in bits && y >= domain;
      }
    }
  }

  /** Decodes every page in turn. */
  method ValidateAll(o: Opened) returns (ok: bool)
    requires OpenedOk(o)
    ensures ok <==> AllDecode(o.record)
  {
    hide Decode, PagesBelow, Stored;
    var r := o.record;
    forall i | 0 <= i < |r.directory|
      ensures r.directory[i].start + r.directory[i].len <= |r.payload| && r.directory[i].len > 0
    {
      SpanFits(r, i);
    }
    var pages := Pages(r.mask);
    var i := 0;
    while i < |pages|
      invariant i <= |pages| && forall k | 0 <= k < i :: Decode(r.kind, r.domain, BytesOf(r, k)).Ok?
    {
      StoredAt(r, i);
      var bits := Offsets(o, pages[i]);
      if bits.Err? {
        return false;
      }
      i := i + 1;
    }
    ok := true;
  }
}
