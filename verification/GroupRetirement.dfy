/**
 Retirement on a stored liveness image: clears are staged in scratch bytes and applied to the
 image in place; directory and identity stay, and every page keeps exactly what was not approved.
 */
module GroupRetirement {
  import opened Outcomes
  import opened Varints
  import opened GroupFiles
  import opened GroupOpening
  import opened GroupedMembers
  import Q = GroupedQuery
  import opened R = RankBitmap

  // ----- bits of bytes -----

  /** The bit `k` of a number set: `v | 1 << k`. */
  function SetBit(v: nat, k: nat): nat
    decreases k
  {
    if k == 0 then v / 2 * 2 + 1 else v % 2 + 2 * SetBit(v / 2, k - 1)
  }

  /** The bits of `v` that `c` does not have: `v & !c`. */
  function ClearBits(v: nat, c: nat): (r: nat)
    ensures r <= v
  {
    if v == 0 then 0 else (if v % 2 == 1 && c % 2 == 0 then 1 else 0) + 2 * ClearBits(v / 2, c / 2)
  }

  lemma {:induction false} SetBitBits(v: nat, k: nat, j: nat)
    ensures Bit(SetBit(v, k), j) <==> Bit(v, j) || j == k
    decreases k
  {
    if k > 0 && j > 0 {
      SetBitBits(v / 2, k - 1, j - 1);
    }
  }

  lemma {:induction false} SetBitSmall(v: nat, k: nat, n: nat)
    requires v < Power(n) && k < n
    ensures SetBit(v, k) < Power(n)
    decreases k
  {
    if k > 0 {
      SetBitSmall(v / 2, k - 1, n - 1);
    }
  }

  lemma {:induction false} ClearBitsBits(v: nat, c: nat, j: nat)
    ensures Bit(ClearBits(v, c), j) <==> Bit(v, j) && !Bit(c, j)
    decreases j
  {
    if v == 0 {
      NoBit(j);
    } else if j > 0 {
      ClearBitsBits(v / 2, c / 2, j - 1);
    }
  }

  lemma {:induction false} ClearNothing(v: nat)
    ensures ClearBits(v, 0) == v
    decreases v
  {
    if v > 0 {
      ClearNothing(v / 2);
    }
  }

  function SetByte(b: Byte, k: nat): Byte
    requires k < 8
  {
    ByteRange();
    SetBitSmall(b, k, 8);
    SetBit(b, k)
  }

  function ClearByte(b: Byte, c: Byte): Byte {
    ClearBits(b, c)
  }

  /** Setting one bit of a page adds one offset. */
  lemma SetInPage(s: seq<Byte>, x: nat)
    requires x < 8 * |s|
    ensures BitsOf(s[x / 8 := SetByte(s[x / 8], x % 8)]) == BitsOf(s) + {x}
  {
    hide Bit, SetBit;
    var t := s[x / 8 := SetByte(s[x / 8], x % 8)];
    forall y: nat ensures y in BitsOf(t) <==> y in BitsOf(s) || y == x {
      if y < 8 * |s| {
        SetBitBits(s[x / 8], x % 8, y % 8);
      }
    }
  }

  /** Bytes with the staged bits taken out. */
  function Cleared(s: seq<Byte>, c: seq<Byte>): (t: seq<Byte>)
    requires |s| <= |c|
    ensures |t| == |s|
  {
    seq(|s|, j requires 0 <= j < |s| => ClearByte(s[j], c[j]))
  }

  lemma ClearPage(s: seq<Byte>, c: seq<Byte>)
    requires |s| == |c|
    ensures BitsOf(Cleared(s, c)) == BitsOf(s) - BitsOf(c)
  {
    hide Bit, ClearBits;
    forall y: nat ensures y in BitsOf(Cleared(s, c)) <==> y in BitsOf(s) && y !in BitsOf(c) {
      if y < 8 * |s| {
        ClearBitsBits(s[y / 8], c[y / 8], y % 8);
      }
    }
  }

  lemma ZeroPage(c: seq<Byte>)
    requires forall j | 0 <= j < |c| :: c[j] == 0
    ensures BitsOf(c) == {}
  {
    hide Bit;
    forall y: nat ensures y !in BitsOf(c) {
      NoBit(y % 8);
    }
  }

  // ----- staging one page -----

  /** The decision of a callback that may fail. */
  type Approval = Root -> Result<bool, Q.Error>

  function Approves(removable: Approval): Root -> bool {
    r => removable(r) == Ok(true)
  }

  /** The approved bits among those below `n`. */
  function Approved(base: nat, page: nat, bits: set<nat>, removable: Approval, n: nat): set<nat> {
    set x | x in bits && x < n && removable(Root(base + page, x + 1)) == Ok(true)
  }

  lemma ApprovedNext(base: nat, page: nat, bits: set<nat>, removable: Approval, n: nat)
    ensures Approved(base, page, bits, removable, n + 1) == Approved(base, page, bits, removable, n) +
              if n in bits && removable(Root(base + page, n + 1)) == Ok(true) then {n} else {}
  {
  }

  lemma ApprovedAll(base: nat, page: nat, bits: set<nat>, removable: Approval, n: nat)
    requires forall x | x in bits :: x < n
    ensures Approved(base, page, bits, removable, n) == bits - Kept(base, page, bits, Approves(removable))
  {
  }

  ghost predicate AllDecided(base: nat, page: nat, bits: set<nat>, removable: Approval) {
    forall x | x in bits :: removable(Root(base + page, x + 1)).Ok?
  }

  /** Visits a page's offsets in order and stages each approved one at its byte and bit. */
  method StagePage(clear: array<Byte>, at: nat, len: nat, bits: set<nat>, base: nat, page: nat, removable: Approval)
    returns (r: Result<nat, Q.Error>)
    requires at + len <= clear.Length && forall j | at <= j < at + len :: clear[j] == 0
    requires forall x | x in bits :: x < 8 * len
    modifies clear
    ensures clear[..at] == old(clear[..at]) && clear[at + len..] == old(clear[at + len..])
    ensures r.Ok? <==> AllDecided(base, page, bits, removable)
    ensures r.Ok? ==> BitsOf(clear[at..at + len]) == bits - Kept(base, page, bits, Approves(removable))
    ensures r.Ok? ==> r.value == |bits - Kept(base, page, bits, Approves(removable))|
  {
    hide BitsOf, Kept, Approved, SetByte;
    ghost var staged: set<nat> := {};
    var count := 0;
    ZeroPage(clear[at..at + len]);
    ApprovedNone(base, page, bits, removable);
    var x := 0;
    while x < 8 * len
      invariant x <= 8 * len
      invariant clear[..at] == old(clear[..at]) && clear[at + len..] == old(clear[at + len..])
      invariant staged == Approved(base, page, bits, removable, x) && BitsOf(clear[at..at + len]) == staged &&
                  count == |staged|
      invariant forall y | y in staged :: y < x
      invariant forall y | y in bits && y < x :: removable(Root(base + page, y + 1)).Ok?
    {
      ApprovedNext(base, page, bits, removable, x);
      if x in bits {
        var decision := removable(Root(base + page, x + 1));
        if decision.Err? {
          return Err(decision.error);
        }
        if decision.value {
          ghost var before := clear[at..at + len];
          SetInPage(before, x);
          clear[at + x / 8] := SetByte(clear[at + x / 8], x % 8);
          assert clear[at..at + len] == before[x / 8 := SetByte(before[x / 8], x % 8)];
          staged := staged + {x};
          count := count + 1;
        }
      }
      x := x + 1;
    }
    ApprovedAll(base, page, bits, removable, 8 * len);
    r := Ok(count);
  }

  lemma ApprovedNone(base: nat, page: nat, bits: set<nat>, removable: Approval)
    ensures Approved(base, page, bits, removable, 0) == {}
  {
  }

  /** Takes the staged bits out of the image, byte by byte. */
  method Apply(bytes: array<Byte>, clear: array<Byte>)
    requires bytes != clear && bytes.Length <= clear.Length
    modifies bytes
    ensures bytes[..] == Cleared(old(bytes[..]), clear[..])
  {
    hide ClearByte;
    var j := 0;
    while j < bytes.Length
      invariant j <= bytes.Length
      invariant forall k | 0 <= k < j :: bytes[k] == ClearByte(old(bytes[k]), clear[k])
      invariant forall k | j <= k < bytes.Length :: bytes[k] == old(bytes[k])
    {
      bytes[j] := ClearByte(bytes[j], clear[j]);
      j := j + 1;
    }
  }

  // ----- staging a record -----

  /** Where the payload of a stored record begins. */
  function Body(r: Record): nat {
    HEADER_BYTES + 4 * |r.directory|
  }

  /** Where the bytes of the page with the given rank end in the payload. */
  function End(r: Record, n: nat): nat
    requires n <= |r.directory|
  {
    if n == 0 then 0 else r.directory[n - 1].start + r.directory[n - 1].len
  }

  /** Where a present page's bytes begin in the payload. */
  function StartOf(r: Record, page: nat): (at: nat)
    requires Opens(r) && page in r.mask
    ensures at + |Stored(r, page)| <= |r.payload| && Stored(r, page) == r.payload[at..at + |Stored(r, page)|]
  {
    RankIsPlace(r.mask, page, GROUP_PAGES);
    SpanFits(r, Rank(r.mask, page));
    r.directory[Rank(r.mask, page)].start
  }

  lemma {:induction false} EndsRise(r: Record, i: nat, j: nat)
    requires Opens(r) && i <= j <= |r.directory|
    ensures End(r, i) <= End(r, j) <= |r.payload|
    decreases j - i
  {
    hide Pages;
    if i < j {
      assert SpanOk(r, i);
      EndsRise(r, i + 1, j);
    } else if j < |r.directory| {
      assert SpanOk(r, j);
      SpanFits(r, j);
    }
  }

  /** A page starts where the pages before it end. */
  lemma PageSpan(r: Record, page: nat)
    requires Opens(r) && page in r.mask
    ensures Rank(r.mask, page) < |r.directory| && StartOf(r, page) == End(r, Rank(r.mask, page))
    ensures Rank(r.mask, page + 1) == Rank(r.mask, page) + 1
    ensures End(r, Rank(r.mask, page + 1)) == StartOf(r, page) + |Stored(r, page)|
  {
    RankIsPlace(r.mask, page, GROUP_PAGES);
    assert SpanOk(r, Rank(r.mask, page));
    SpanFits(r, Rank(r.mask, page));
  }

  lemma {:induction false} RanksRise(mask: set<nat>, p: nat, q: nat)
    requires p <= q
    ensures Rank(mask, p) <= Rank(mask, q)
    decreases q
  {
    if p < q {
      RanksRise(mask, p, q - 1);
    }
  }

  lemma RankBound(r: Record, page: nat)
    requires Opens(r) && page <= GROUP_PAGES
    ensures Rank(r.mask, page) <= |r.directory|
  {
    RanksRise(r.mask, page, GROUP_PAGES);
  }

  /** The bits staged for one page are those its callback approved. */
  ghost predicate PageStaged(r: Record, base: nat, clear: seq<Byte>, removable: Approval, page: nat)
    requires Opens(r) && page in r.mask && Body(r) + |r.payload| <= |clear|
  {
    var at, bytes := Body(r) + StartOf(r, page), Stored(r, page);
    BitsOf(clear[at..at + |bytes|]) == BitsOf(bytes) - Kept(base, page, BitsOf(bytes), Approves(removable))
  }

  /** Pages below `p` are staged; nothing else is. */
  ghost predicate Staged(r: Record, base: nat, clear: seq<Byte>, removable: Approval, p: nat)
    requires Opens(r) && p <= GROUP_PAGES
  {
    RankBound(r, p);
    && Body(r) + |r.payload| <= |clear|
    && (forall j | 0 <= j < Body(r) :: clear[j] == 0)
    && (forall j | Body(r) + End(r, Rank(r.mask, p)) <= j < |clear| :: clear[j] == 0)
    && (forall page | page in r.mask && page < p :: PageStaged(r, base, clear, removable, page))
  }

  /** Every live root of a page that decodes is decided. */
  ghost predicate PageDecided(r: Record, base: nat, removable: Approval, page: nat)
    requires Opens(r) && page in r.mask
  {
    Decode(r.kind, r.domain, Stored(r, page)).Ok? && AllDecided(base, page, BitsOf(Stored(r, page)), removable)
  }

  /** Staging one more page keeps what was staged. */
  lemma StagedNext(r: Record, base: nat, before: seq<Byte>, after: seq<Byte>, removable: Approval, page: nat)
    requires Opens(r) && page in r.mask && page < GROUP_PAGES && Staged(r, base, before, removable, page)
    requires |after| == |before|
    requires PageStaged(r, base, after, removable, page)
    requires var at := Body(r) + StartOf(r, page);
             after[..at] == before[..at] && after[at + |Stored(r, page)|..] == before[at + |Stored(r, page)|..]
    ensures Staged(r, base, after, removable, page + 1)
  {
    hide Opens, Stored, BitsOf, Kept, Rank, PagesBelow;
    PageSpan(r, page);
    RankBound(r, page);
    RankBound(r, page + 1);
    var at, len := Body(r) + StartOf(r, page), |Stored(r, page)|;
    forall j | 0 <= j < at ensures after[j] == before[j] {
      assert after[..at][j] == before[..at][j];
    }
    forall j | at + len <= j < |after| ensures after[j] == before[j] {
      assert after[at + len..][j - at - len] == before[at + len..][j - at - len];
    }
    forall p | p in r.mask && p < page ensures PageStaged(r, base, after, removable, p) {
      assert PageStaged(r, base, before, removable, p);
      PageSpan(r, p);
      RanksRise(r.mask, p + 1, page);
      EndsRise(r, Rank(r.mask, p + 1), Rank(r.mask, page));
      var start, n := Body(r) + StartOf(r, p), |Stored(r, p)|;
      assert after[start..start + n] == before[start..start + n];
    }
  }

  lemma StagedSkip(r: Record, base: nat, clear: seq<Byte>, removable: Approval, page: nat)
    requires Opens(r) && page !in r.mask && page < GROUP_PAGES && Staged(r, base, clear, removable, page)
    ensures Staged(r, base, clear, removable, page + 1)
  {
    hide Opens, Stored, BitsOf, Kept, PageStaged;
    RankBound(r, page);
    assert PagesBelow(r.mask, page + 1) == PagesBelow(r.mask, page);
  }

  /** Decodes one page, asks about each of its roots and stages the approved ones. */
  method StageOne(view: View, clear: array<Byte>, removable: Approval, page: nat) returns (r: Result<nat, Q.Error>)
    requires RecordOk(view.key, view.bitmap.record) && OpenedOk(view.bitmap) && page in view.bitmap.record.mask &&
               page < GROUP_PAGES
    requires Staged(view.bitmap.record, view.key.base, clear[..], removable, page)
    modifies clear
    ensures r.Ok? <==> PageDecided(view.bitmap.record, view.key.base, removable, page)
    ensures r.Ok? ==> Staged(view.bitmap.record, view.key.base, clear[..], removable, page + 1)
    ensures r.Ok? ==> var bits := BitsOf(Stored(view.bitmap.record, page));
                      r.value == |bits - Kept(view.key.base, page, bits, Approves(removable))|
  {
    hide Opens, Stored, BitsOf, Kept, PagesBelow, Decode, Staged, AllDecided, PageStaged, Approves, Rank, RecordOk;
    var record, base := view.bitmap.record, view.key.base;
    var offsets := Offsets(view.bitmap, page);
    if offsets.Err? {
      return Err(Q.InvalidState);
    }
    DecodesTo(record.kind, record.domain, Stored(record, page));
    var start, len := SpanAt(view.bitmap, page);
    ghost var before := clear[..];
    StagedZero(record, base, before, removable, page);
    PageBitsFit(Stored(record, page));
    var at := Body(record) + start;
    r := StagePage(clear, at, len, offsets.value, base, page, removable);
    if r.Ok? {
      StagedHere(record, base, clear[..], removable, page);
      assert before[..at] == old(clear[..at]) && before[at + len..] == old(clear[at + len..]);
      assert clear[..][..at] == clear[..at] && clear[..][at + len..] == clear[at + len..];
      StagedNext(record, base, before, clear[..], removable, page);
    }
  }

  /** Stages every page of an image in ascending order. */
  method StageAll(view: View, clear: array<Byte>, removable: Approval) returns (r: Result<nat, Q.Error>)
    requires RecordOk(view.key, view.bitmap.record) && OpenedOk(view.bitmap)
    requires BitmapLength(view.bitmap.record) <= clear.Length && forall j | 0 <= j < clear.Length :: clear[j] == 0
    modifies clear
    ensures r.Ok? <==>
              forall page | page in view.bitmap.record.mask ::
              PageDecided(view.bitmap.record, view.key.base, removable, page)
    ensures r.Ok? ==> Staged(view.bitmap.record, view.key.base, clear[..], removable, GROUP_PAGES)
    ensures r.Ok? ==>
              r.value == CountCleared(view.key.base, Contents(view.bitmap.record), Approves(removable), GROUP_PAGES)
  {
    hide Opens, Stored, BitsOf, Kept, PagesBelow, Staged, PageDecided, OpenedOk, Approves, Rank, Contents, CountCleared,
        RecordOk;
    var record, base := view.bitmap.record, view.key.base;
    OpenParts(view);
    StagedNone(record, base, clear[..], removable);
    CountNone(record, base, removable);
    var removed := 0;
    var page := 0;
    while page < GROUP_PAGES
      invariant page <= GROUP_PAGES
      invariant Staged(record, base, clear[..], removable, page)
      invariant forall p | p in record.mask && p < page :: PageDecided(record, base, removable, p)
      invariant removed == CountCleared(base, Contents(record), Approves(removable), page)
    {
      CountNext(record, base, removable, page);
      if page in record.mask {
        var staged := StageOne(view, clear, removable, page);
        if staged.Err? {
          return Err(staged.error);
        }
        removed := removed + staged.value;
      } else {
        StagedSkip(record, base, clear[..], removable, page);
      }
      page := page + 1;
    }
    r := Ok(removed);
  }

  lemma CountNone(r: Record, base: nat, removable: Approval)
    requires Opens(r)
    ensures CountCleared(base, Contents(r), Approves(removable), 0) == 0
  {
  }

  lemma OpenParts(view: View)
    requires RecordOk(view.key, view.bitmap.record) && OpenedOk(view.bitmap)
    ensures Opens(view.bitmap.record) && view.bitmap.record.domain == view.key.domain
    ensures forall page | page in view.bitmap.record.mask :: page < GROUP_PAGES
  {
  }

  lemma StagedNone(r: Record, base: nat, clear: seq<Byte>, removable: Approval)
    requires Opens(r) && BitmapLength(r) <= |clear| && forall j | 0 <= j < |clear| :: clear[j] == 0
    ensures Staged(r, base, clear, removable, 0)
  {
  }

  lemma StagedZero(r: Record, base: nat, clear: seq<Byte>, removable: Approval, page: nat)
    requires Opens(r) && page in r.mask && page < GROUP_PAGES && Staged(r, base, clear, removable, page)
    ensures Body(r) + |r.payload| <= |clear|
    ensures forall j | Body(r) + StartOf(r, page) <= j < |clear| :: clear[j] == 0
  {
    hide Opens, Stored, BitsOf, Kept, PagesBelow, PageStaged;
    PageSpan(r, page);
  }

  lemma StagedHere(r: Record, base: nat, clear: seq<Byte>, removable: Approval, page: nat)
    requires Opens(r) && page in r.mask && Body(r) + |r.payload| <= |clear|
    requires var at, bytes := Body(r) + StartOf(r, page), Stored(r, page);
             BitsOf(clear[at..at + |bytes|]) == BitsOf(bytes) - Kept(base, page, BitsOf(bytes), Approves(removable))
    ensures PageStaged(r, base, clear, removable, page)
  {
  }

  lemma PageBitsFit(bytes: seq<Byte>)
    ensures forall x | x in BitsOf(bytes) :: x < 8 * |bytes|
  {
  }

  lemma CountNext(r: Record, base: nat, removable: Approval, page: nat)
    requires Opens(r)
    ensures var bits := if page in r.mask then BitsOf(Stored(r, page)) else {};
            CountCleared(base, Contents(r), Approves(removable), page + 1)
              == CountCleared(base, Contents(r), Approves(removable), page)
                 + |bits - Kept(base, page, bits, Approves(removable))|
  {
  }

  /** A present page's place in the payload, found by rank. */
  method SpanAt(o: Opened, page: nat) returns (start: nat, len: nat)
    requires OpenedOk(o) && page in o.record.mask
    ensures start == StartOf(o.record, page) && len == |Stored(o.record, page)|
  {
    hide PagesBelow;
    RankIsPlace(o.record.mask, page, GROUP_PAGES);
    var rank := RankOf(o.record.mask, o.prefixes, page);
    SpanFits(o.record, rank);
    var s := o.record.directory[rank];
    start, len := s.start, s.len;
  }

  // ----- the cleared image -----

  /** Same directory and identity, and on every page exactly the offsets that were not approved. */
  ghost predicate RetiredBy(before: Record, after: Record, base: nat, removable: Approval)
    requires Opens(before)
  {
    && Narrowed(before, after)
    && forall page | page in before.mask ::
         BitsOf(Stored(after, page)) == Kept(base, page, BitsOf(Stored(before, page)), Approves(removable))
  }

  function AfterClear(r: Record, clear: seq<Byte>): Record
    requires BitmapLength(r) <= |clear|
  {
    r.(payload := Cleared(r.payload, clear[Body(r)..]))
  }

  lemma PayloadOnly(before: Record, after: Record)
    requires Opens(before) && after == before.(payload := after.payload) && |after.payload| == |before.payload|
    ensures Opens(after)
  {
    hide Pages;
    forall i | 0 <= i < |after.directory| ensures SpanOk(after, i) {
      assert SpanOk(before, i);
    }
  }

  /** A page of the cleared payload is the page with its staged bits taken out. */
  lemma ClearedPage(r: Record, clear: seq<Byte>, page: nat)
    requires Opens(r) && page in r.mask && BitmapLength(r) <= |clear|
    ensures Opens(AfterClear(r, clear))
    ensures var at := Body(r) + StartOf(r, page);
            Stored(AfterClear(r, clear), page) == Cleared(Stored(r, page), clear[at..at + |Stored(r, page)|])
  {
    hide Opens, Pages, ClearByte, Stored;
    var after := AfterClear(r, clear);
    PayloadOnly(r, after);
    SameWidth(r, after, page);
    var at, len := StartOf(r, page), |Stored(r, page)|;
    assert StartOf(after, page) == at;
    assert Stored(after, page) == after.payload[at..at + len];
    var tail := clear[Body(r)..];
    ClearedSlice(r.payload, tail, at, len);
    assert clear[Body(r) + at..Body(r) + at + len] == tail[at..at + len];
  }

  /** Clearing a part is the part of the clearing. */
  lemma ClearedSlice(s: seq<Byte>, c: seq<Byte>, at: nat, len: nat)
    requires |s| <= |c| && at + len <= |s|
    ensures Cleared(s, c)[at..at + len] == Cleared(s[at..at + len], c[at..at + len])
  {
    hide ClearByte;
  }

  /** Applying a complete staging to a stored image stores the retired record. */
  lemma ImageCleared(bytes: seq<Byte>, key: Key, r: Record, clear: seq<Byte>, removable: Approval)
    requires IsBitmap(bytes, key, r) && Staged(r, key.base, clear, removable, GROUP_PAGES)
    ensures BitmapLength(r) <= |clear| && |bytes| <= |clear|
    ensures IsBitmap(Cleared(bytes, clear), key, AfterClear(r, clear))
    ensures RetiredBy(r, AfterClear(r, clear), key.base, removable)
  {
    hide Opens, HeaderBytes, DirectoryBytes, Stored, BitsOf, Kept, PagesBelow, Cleared, MaskOk, KeyOk;
    var after := AfterClear(r, clear);
    PayloadOnly(r, after);
    HeadKept(bytes, key, r, clear);
    MaskInRange(key, r);
    forall page | page in r.mask
      ensures BitsOf(Stored(after, page)) == Kept(key.base, page, BitsOf(Stored(r, page)), Approves(removable))
    {
      assert PageStaged(r, key.base, clear, removable, page);
      ClearedPage(r, clear, page);
      var at := Body(r) + StartOf(r, page);
      var bits := BitsOf(Stored(r, page));
      ClearPage(Stored(r, page), clear[at..at + |Stored(r, page)|]);
      assert bits - (bits - Kept(key.base, page, bits, Approves(removable))) ==
               Kept(key.base, page, bits, Approves(removable));
    }
  }

  lemma MaskInRange(key: Key, r: Record)
    requires RecordOk(key, r)
    ensures forall page | page in r.mask :: page < GROUP_PAGES
  {
  }

  /** Header and directory are untouched. */
  lemma HeadKept(bytes: seq<Byte>, key: Key, r: Record, clear: seq<Byte>)
    requires bytes == BitmapBytes(key, r) && |bytes| <= |clear| && forall j | 0 <= j < Body(r) :: clear[j] == 0
    ensures Cleared(bytes, clear) == BitmapBytes(key, AfterClear(r, clear))
  {
    hide HeaderBytes, DirectoryBytes, ClearBits;
    var head := HeaderBytes(Header(key, KindCode(r.kind), 0, r.mask), BitmapLength(r)) + DirectoryBytes(r.directory);
    var c := clear[Body(r)..];
    assert bytes == head + r.payload && BitmapBytes(key, AfterClear(r, clear)) == head + Cleared(r.payload, c);
    forall j | 0 <= j < |bytes| ensures Cleared(bytes, clear)[j] == (head + Cleared(r.payload, c))[j] {
      ClearNothing(bytes[j]);
    }
  }

  /** The image is liveness of this identity, decodes, and every live root is decided. */
  ghost predicate Retirable(bytes: seq<Byte>, key: Key, r: Record, removable: Approval) {
    && IsBitmap(bytes, key, r) && r.kind == Liveness
    && forall page | page in r.mask :: PageDecided(r, key.base, removable, page)
  }

  /**
   Clears every approved root of one generation in place. Nothing is written before the whole
   image has been decoded and every callback answered.
   */
  method RetireRoots(bytes: array<Byte>, key: Key, removable: Approval)
    returns (r: Result<nat, Q.Error>, ghost before: Record, ghost after: Record)
    modifies bytes
    ensures r.Err? ==> bytes[..] == old(bytes[..])
    ensures r.Ok? <==> exists record :: Retirable(old(bytes[..]), key, record, removable)
    ensures r.Ok? ==> Retirable(old(bytes[..]), key, before, removable) && IsBitmap(bytes[..], key, after)
    ensures r.Ok? ==> RetiredBy(before, after, key.base, removable)
    ensures r.Ok? ==> r.value == CountCleared(key.base, Contents(before), Approves(removable), GROUP_PAGES)
  {
    hide IsBitmap, RetiredBy, Staged, PageDecided, Contents, Opens, OpenedOk, RecordOk, Cleared, Approves;
    before := Record(Liveness, 0, {}, [], []);
    after := before;
    ghost var image := bytes[..];
    var view := OpenBitmap(bytes[..]);
    if view.Err? {
      return Err(Q.InvalidState), before, after;
    }
    if view.value.bitmap.record.kind != Liveness || view.value.key != key {
      return Err(Q.InvalidState), before, after;
    }
    ViewParts(bytes[..], view.value);
    before := view.value.bitmap.record;
    var clear := new Byte[MAX_BITMAP_BYTES](_ => 0);
    var staged := StageAll(view.value, clear, removable);
    if staged.Err? {
      return Err(staged.error), before, after;
    }
    ImageCleared(image, key, before, clear[..], removable);
    after := AfterClear(before, clear[..]);
    Apply(bytes, clear);
    assert Retirable(image, key, before, removable);
    r := Ok(staged.value);
  }

  lemma ViewParts(bytes: seq<Byte>, v: View)
    requires ViewOk(bytes, v)
    ensures IsBitmap(bytes, v.key, v.bitmap.record) && OpenedOk(v.bitmap) && RecordOk(v.key, v.bitmap.record) &&
              Opens(v.bitmap.record)
    ensures BitmapLength(v.bitmap.record) == |bytes| <= MAX_BITMAP_BYTES
  {
    hide HeaderBytes, DirectoryBytes;
    BitmapFits(v.key, v.bitmap.record);
  }

  /** A valid group stays valid under retirement, and its liveness keeps exactly the rest. */
  lemma RetiredOpens(sg: SegmentGroup, after: Record, removable: Approval)
    requires GroupValid(sg) && RetiredBy(sg.record, after, sg.key.base, removable)
    ensures GroupValid(sg.(record := after)) && GroupOk(Decoded(sg.(record := after)))
    ensures Contents(after) == map page | page in Contents(sg.record) ::
              Kept(sg.key.base, page, Contents(sg.record)[page], Approves(removable))
  {
    hide Opens, Stored, BitsOf, Kept, LivePage, MembersOk, MemberPages, Approves;
    NarrowedOpens(sg, after);
    ValidIsGroup(sg.(record := after));
  }

  /** Every program's answer over the retired image loses exactly the approved roots. */
  lemma RetiredAnswers(seg: Q.Segment, before: Record, after: Record, removable: Approval, program: seq<Q.Node>, n: nat,
      page: nat)
    requires n < |program| && Q.WellFormed(program, |seg.terms|)
    requires Opens(before) && seg.live == Contents(before) && RetiredBy(before, after, seg.base, removable)
    ensures Q.Answer(seg.(live := Contents(after)), program, n, page)
              == set o | o in Q.Answer(seg, program, n, page) && removable(Root(seg.base + page, o + 1)) != Ok(true)
  {
    hide Opens, Stored, BitsOf, Q.Answer, Q.WellFormed;
    RetireRemovesExactly(seg, Contents(after), Approves(removable), program, n, page);
  }

  // ----- one member -----

  /** Scratch with one bit of one page staged. */
  function OneStaged(r: Record, page: nat, bit: nat): (clear: seq<Byte>)
    requires Opens(r) && page in r.mask && bit < 8 * |Stored(r, page)|
    ensures |clear| == BitmapLength(r)
  {
    seq(BitmapLength(r), _ => 0)[Body(r) + StartOf(r, page) + bit / 8 := SetByte(0, bit % 8)]
  }

  /** On its own page one bit is staged, on every other page none. */
  lemma OneStagedBits(r: Record, page: nat, bit: nat, p: nat)
    requires Opens(r) && page in r.mask && bit < 8 * |Stored(r, page)| && p in r.mask
    ensures var at := Body(r) + StartOf(r, p);
            BitsOf(OneStaged(r, page, bit)[at..at + |Stored(r, p)|]) == if p == page then {bit} else {}
  {
    hide Opens, Stored, BitsOf, PagesBelow, SetByte;
    var clear := OneStaged(r, page, bit);
    var at, len := Body(r) + StartOf(r, p), |Stored(r, p)|;
    var slice := clear[at..at + len];
    PageSpan(r, p);
    PageSpan(r, page);
    RankBound2(r, p, page);
    if p == page {
      var zeros: seq<Byte> := seq(len, _ => 0);
      ZeroPage(zeros);
      SetInPage(zeros, bit);
      assert slice == zeros[bit / 8 := SetByte(zeros[bit / 8], bit % 8)];
    } else {
      ZeroPage(slice);
    }
  }

  lemma RankBound2(r: Record, p: nat, q: nat)
    requires Opens(r) && p in r.mask && q in r.mask
    ensures p < q ==> StartOf(r, p) + |Stored(r, p)| <= StartOf(r, q)
    ensures q < p ==> StartOf(r, q) + |Stored(r, q)| <= StartOf(r, p)
  {
    hide Opens, Stored, PagesBelow;
    PageSpan(r, p);
    PageSpan(r, q);
    if p < q {
      RanksRise(r.mask, p + 1, q);
      EndsRise(r, Rank(r.mask, p + 1), Rank(r.mask, q));
    } else if q < p {
      RanksRise(r.mask, q + 1, p);
      EndsRise(r, Rank(r.mask, q + 1), Rank(r.mask, p));
    }
  }

  /** Clearing one bit of one byte takes one offset from one page and leaves all else. */
  lemma OneCleared(bytes: seq<Byte>, key: Key, r: Record, page: nat, bit: nat)
    requires IsBitmap(bytes, key, r) && page in r.mask && bit < 8 * |Stored(r, page)|
    ensures var after := AfterClear(r, OneStaged(r, page, bit));
            && IsBitmap(Cleared(bytes, OneStaged(r, page, bit)), key, after) && Narrowed(r, after)
            && Contents(after) == Contents(r)[page := Contents(r)[page] - {bit}]
  {
    hide Opens, HeaderBytes, DirectoryBytes, Stored, BitsOf, Cleared, MaskOk, KeyOk, StartOf;
    var clear := OneStaged(r, page, bit);
    var after := AfterClear(r, clear);
    PayloadOnly(r, after);
    HeadKept(bytes, key, r, clear);
    forall p | p in r.mask
      ensures BitsOf(Stored(after, p)) == if p == page then BitsOf(Stored(r, p)) - {bit} else BitsOf(Stored(r, p))
    {
      OneStagedBits(r, page, bit, p);
      ClearedPage(r, clear, p);
      var at := Body(r) + StartOf(r, p);
      ClearPage(Stored(r, p), clear[at..at + |Stored(r, p)|]);
    }
  }

  /** One byte of the image changes. */
  lemma OneByte(bytes: seq<Byte>, key: Key, r: Record, page: nat, bit: nat)
    requires IsBitmap(bytes, key, r) && page in r.mask && bit < 8 * |Stored(r, page)|
    ensures |bytes| == BitmapLength(r) && Body(r) + StartOf(r, page) + bit / 8 < |bytes|
    ensures var at := Body(r) + StartOf(r, page) + bit / 8;
            && Cleared(bytes, OneStaged(r, page, bit)) == bytes[at := ClearByte(bytes[at], SetByte(0, bit % 8))]
            && bytes[at] == Stored(r, page)[bit / 8]
  {
    hide Opens, HeaderBytes, DirectoryBytes, Stored, ClearBits, SetByte;
    var clear := OneStaged(r, page, bit);
    var at := Body(r) + StartOf(r, page) + bit / 8;
    assert bytes[Body(r)..] == r.payload;
    assert bytes[at] == bytes[Body(r)..][at - Body(r)];
    var out := bytes[at := ClearByte(bytes[at], SetByte(0, bit % 8))];
    forall j | 0 <= j < |bytes| ensures Cleared(bytes, clear)[j] == out[j] {
      ClearNothing(bytes[j]);
    }
  }

  /** The liveness image belongs to this membership, and this page passes every check. */
  ghost predicate PageBound(bytes: seq<Byte>, key: Key, ms: seq<Member>, r: Record, page: nat)
    requires MembersOk(key, ms)
  {
    && IsBitmap(bytes, key, r) && r.kind == Liveness && r.mask == MemberPages(ms)
    && page in r.mask && LivePage(SegmentGroup(key, ms, r), page)
  }

  /** A member's bit lies inside its page's bytes. */
  lemma MemberBitFits(key: Key, ms: seq<Member>, r: Record, m: Member)
    requires MembersOk(key, ms) && m in ms && Opens(r) && m.root.block % 256 in r.mask
    requires LivePage(SegmentGroup(key, ms, r), m.root.block % 256)
    ensures m.root.block % 256 in MemberPages(ms) && BitOf(m.root) < 8 * |Stored(r, m.root.block % 256)|
  {
    hide Opens, Stored, BitsOf, Decode;
    var i :| 0 <= i < |ms| && ms[i] == m;
    assert MemberOk(key, ms[i]);
    var page := m.root.block % 256;
    assert ms[i].root.block == key.base + page;
    assert BitOf(m.root) in PageMembers(key, ms, page);
    PageHasMembers(key, ms, page);
  }

  /** Clears one matching incarnation in a private image, idempotently. */
  method Retire(key: Key, ms: seq<Member>, live: array<Byte>, member: Member)
    returns (r: Result<bool, Q.Error>, ghost before: Record, ghost after: Record)
    requires MembersOk(key, ms)
    modifies live
    ensures r.Err? ==> live[..] == old(live[..])
    ensures r.Ok? <==>
              member in ms && exists record :: PageBound(old(live[..]), key, ms, record, member.root.block % 256)
    ensures r.Ok? ==> PageBound(old(live[..]), key, ms, before, member.root.block % 256)
    ensures r.Ok? ==> IsBitmap(live[..], key, after) && Narrowed(before, after)
    ensures r.Ok? ==> var page, bit := member.root.block % 256, BitOf(member.root);
                      && r.value == (bit in Contents(before)[page])
                      && Contents(after) == Contents(before)[page := Contents(before)[page] - {bit}]
  {
    hide IsBitmap, Narrowed, OpenedOk, RecordOk, Opens, LivePage, MembersOk, MemberPages, Stored, BitsOf, BitmapBytes;
    hide Cleared, OneStaged, AfterClear, ClearByte, SetByte, StartOf;
    before := Record(Liveness, 0, {}, [], []);
    after := before;
    ghost var image := live[..];
    var page, bit := member.root.block % 256, BitOf(member.root);
    MembersAscend(key, ms);
    var found := Find(ms, member.root);
    if found != Some(member) {
      Unknown(ms, member, found);
      return Err(Q.InvalidState), before, after;
    }
    var view := OpenBitmap(live[..]);
    if view.Err? {
      return Err(Q.InvalidState), before, after;
    }
    var record := view.value.bitmap.record;
    if record.kind != Liveness || view.value.key != key || record.mask != MemberPages(ms) {
      return Err(Q.InvalidState), before, after;
    }
    ViewParts(image, view.value);
    MemberPage(ms, member);
    MaskInRange(key, record);
    var checked := CheckPage(key, ms, view.value, page);
    if !checked {
      return Err(Q.InvalidState), before, after;
    }
    before := record;
    MemberBitFits(key, ms, record, member);
    var start, _ := SpanAt(view.value.bitmap, page);
    OneByte(image, key, record, page, bit);
    OneCleared(image, key, record, page, bit);
    after := AfterClear(record, OneStaged(record, page, bit));
    var byte := Body(record) + start + bit / 8;
    var changed := Bit(live[byte], bit % 8);
    BitHeld(Stored(record, page), bit);
    live[byte] := ClearByte(live[byte], SetByte(0, bit % 8));
    assert live[..] == image[byte := ClearByte(image[byte], SetByte(0, bit % 8))];
    assert PageBound(image, key, ms, record, page);
    r := Ok(changed);
  }

  lemma BitHeld(bytes: seq<Byte>, bit: nat)
    requires bit < 8 * |bytes|
    ensures Bit(bytes[bit / 8], bit % 8) <==> bit in BitsOf(bytes)
  {
  }

  lemma MemberPage(ms: seq<Member>, m: Member)
    requires m in ms
    ensures m.root.block % 256 in MemberPages(ms)
  {
  }

  lemma Unknown(ms: seq<Member>, member: Member, found: Option<Member>)
    requires Ascending(ms) && found != Some(member)
    requires found.Some? ==> found.value in ms && found.value.root == member.root
    requires found.None? ==> forall m | m in ms :: m.root != member.root
    ensures member !in ms
  {
    if member in ms && found.Some? {
      SameRoot(ms, member, found.value);
    }
  }
}
