/**
 Opening stored segment groups: the membership file, and the liveness bitmap bound to it;
 a merge of opened groups writes files that open again.
 */
module GroupOpening {
  import opened Outcomes
  import opened Varints
  import opened GroupFiles
  import opened GroupedMembers
  import R = RankBitmap

  const LAST_BLOCK: nat := 0xFFFF_FFFF

  // ----- membership files -----

  function MemberWidths(): (ws: seq<nat>)
    ensures |ws| == 4 && RowWidth(ws) == 16
  {
    FourWidths(4, 2, 2, 8);
    [4, 2, 2, 8]
  }

  function MemberBytes(m: Member): (b: seq<Byte>)
    ensures |b| == 16
  {
    EncodeFields([m.root.block, m.root.offset, 0, m.incarnation], MemberWidths())
  }

  /** A valid owner of the group: its block lies in it and its offset in the domain. */
  predicate MemberOk(key: Key, m: Member) {
    && m.root.block - m.root.block % 256 == key.base && m.root.block < LAST_BLOCK
    && 0 < m.root.offset <= key.domain
    && 0 < m.incarnation < LIMIT * LIMIT
  }

  /** One owner record, if its reserved field is zero and its owner is valid. */
  function ReadMember(key: Key, b: seq<Byte>): Result<Member, R.BitmapError>
    requires |b| == 16
  {
    var v := FieldValues(b, MemberWidths());
    var m := Member(Root(v[0], v[1]), v[3]);
    if v[2] != 0 || !MemberOk(key, m) then Err(R.InvalidState) else Ok(m)
  }

  lemma MemberReadsBack(key: Key, m: Member)
    requires MemberOk(key, m) && key.domain <= MAX_OFFSET
    ensures ReadMember(key, MemberBytes(m)) == Ok(m)
  {
    hide Span256, EncodeFields, FieldValues, RowWidth;
    Widths();
    var vs, ws := [m.root.block, m.root.offset, 0, m.incarnation], MemberWidths();
    assert FieldsFit(vs, ws) by {
      forall i | 0 <= i < 4 ensures vs[i] < Span256(ws[i]) {
      }
    }
    FieldsReadBack(vs, ws);
  }

  lemma MemberIsCanonical(key: Key, b: seq<Byte>)
    requires |b| == 16 && ReadMember(key, b).Ok?
    ensures MemberBytes(ReadMember(key, b).value) == b && MemberOk(key, ReadMember(key, b).value)
  {
    hide Span256, EncodeFields, FieldValues, RowWidth, MemberWidths;
    FieldsAreCanonical(b, MemberWidths());
    var v := FieldValues(b, MemberWidths());
    assert v == [v[0], v[1], v[2], v[3]];
  }

  function MemberTable(ms: seq<Member>): (b: seq<Byte>)
    ensures |b| == 16 * |ms|
  {
    seq(16 * |ms|, j requires 0 <= j < 16 * |ms| => MemberBytes(ms[j / 16])[j % 16])
  }

  lemma RowAt(ms: seq<Member>, i: nat)
    requires i < |ms|
    ensures MemberTable(ms)[16 * i..16 * i + 16] == MemberBytes(ms[i])
  {
    hide MemberBytes;
    var b := MemberTable(ms)[16 * i..16 * i + 16];
    forall k | 0 <= k < 16 ensures b[k] == MemberBytes(ms[i])[k] {
      assert (16 * i + k) / 16 == i && (16 * i + k) % 16 == k;
    }
  }

  lemma RowsMake(b: seq<Byte>, ms: seq<Member>)
    requires |b| == 16 * |ms| && forall i | 0 <= i < |ms| :: b[16 * i..16 * i + 16] == MemberBytes(ms[i])
    ensures MemberTable(ms) == b
  {
    hide MemberBytes;
    forall j | 0 <= j < |b| ensures MemberTable(ms)[j] == b[j] {
      var i := j / 16;
      assert b[16 * i..16 * i + 16][j % 16] == b[j];
    }
  }

  ghost predicate MembersOk(key: Key, ms: seq<Member>) {
    KeyOk(key) && Ascending(ms) && forall i | 0 <= i < |ms| :: MemberOk(key, ms[i])
  }

  /** The pages that have a member. */
  function MemberPages(ms: seq<Member>): set<nat> {
    set i | 0 <= i < |ms| :: ms[i].root.block % 256
  }

  function MembersBytes(key: Key, ms: seq<Member>): seq<Byte> {
    HeaderBytes(Header(key, MEMBERS, |ms|, MemberPages(ms)), HEADER_BYTES + 16 * |ms|) + MemberTable(ms)
  }

  /** The bytes are the stored form of one membership under one identity. */
  ghost predicate IsMembers(bytes: seq<Byte>, key: Key, ms: seq<Member>) {
    MembersOk(key, ms) && bytes == MembersBytes(key, ms)
  }

  /** Where a root stands in the group, counted page by page. */
  function Place(key: Key, r: Root): nat {
    r.block % 256 * key.domain + r.offset
  }

  lemma Scale(p: nat, q: nat, d: nat)
    requires p <= q
    ensures p * d <= q * d
  {
  }

  lemma PlaceRises(key: Key, a: Member, b: Member)
    requires MemberOk(key, a) && MemberOk(key, b) && Less(a.root, b.root)
    ensures Place(key, a.root) < Place(key, b.root)
  {
    var p, q := a.root.block % 256, b.root.block % 256;
    if p < q {
      Scale(p + 1, q, key.domain);
      assert (p + 1) * key.domain == p * key.domain + key.domain;
    }
  }

  /** Distinct roots of the domain: never more members than places. */
  lemma {:induction false} FewMembers(key: Key, ms: seq<Member>, n: nat)
    requires MembersOk(key, ms) && n < |ms|
    ensures n < Place(key, ms[n].root) <= R.GROUP_PAGES * key.domain
    decreases n
  {
    hide Place;
    PlaceBound(key, ms[n]);
    if n > 0 {
      FewMembers(key, ms, n - 1);
      PlaceRises(key, ms[n - 1], ms[n]);
    }
  }

  lemma PlaceBound(key: Key, m: Member)
    requires MemberOk(key, m)
    ensures 0 < Place(key, m.root) <= R.GROUP_PAGES * key.domain
  {
    Scale(m.root.block % 256, 255, key.domain);
  }

  lemma MemberCount(key: Key, ms: seq<Member>)
    requires MembersOk(key, ms)
    ensures |ms| <= R.GROUP_PAGES * key.domain <= 131072
  {
    hide Place;
    if ms != [] {
      FewMembers(key, ms, |ms| - 1);
    }
  }

  lemma MemberMask(key: Key, ms: seq<Member>)
    requires MembersOk(key, ms)
    ensures MaskOk(key, MemberPages(ms))
  {
    assert forall i | 0 <= i < |ms| && ms[i].root.block % 256 == 255 :: key.base != LAST_BASE;
  }

  /** The bytes of one owner record. */
  function Row(bytes: seq<Byte>, i: nat): (b: seq<Byte>)
    requires HEADER_BYTES + 16 * i + 16 <= |bytes|
    ensures |b| == 16
  {
    bytes[HEADER_BYTES + 16 * i..HEADER_BYTES + 16 * i + 16]
  }

  /** Header and rows of a stored membership. */
  lemma MembersHeader(bytes: seq<Byte>, key: Key, ms: seq<Member>)
    requires IsMembers(bytes, key, ms)
    ensures ReadHeader(bytes) == Ok(Header(key, MEMBERS, |ms|, MemberPages(ms)))
    ensures |ms| <= R.GROUP_PAGES * key.domain && |bytes| == HEADER_BYTES + 16 * |ms|
    ensures bytes[HEADER_BYTES..] == MemberTable(ms)
  {
    hide HeaderBytes, MemberTable, ReadHeader, MemberPages;
    MemberCount(key, ms);
    MemberMask(key, ms);
    HeaderReadsBack(Header(key, MEMBERS, |ms|, MemberPages(ms)), MemberTable(ms));
  }

  lemma MembersRow(bytes: seq<Byte>, key: Key, ms: seq<Member>, i: nat)
    requires IsMembers(bytes, key, ms) && i < |ms|
    ensures |bytes| == HEADER_BYTES + 16 * |ms|
    ensures ReadMember(key, Row(bytes, i)) == Ok(ms[i])
  {
    hide HeaderBytes, MemberTable, ReadHeader, MemberPages, ReadMember, MemberBytes;
    MembersHeader(bytes, key, ms);
    RowAt(ms, i);
    assert Row(bytes, i) == bytes[HEADER_BYTES..][16 * i..16 * i + 16];
    assert MemberOk(key, ms[i]);
    MemberReadsBack(key, ms[i]);
  }

  /** Every owner record reads, in ascending order. */
  ghost predicate RowsRead(bytes: seq<Byte>, key: Key, ms: seq<Member>) {
    && |bytes| == HEADER_BYTES + 16 * |ms| && Ascending(ms)
    && forall i | 0 <= i < |ms| :: ReadMember(key, Row(bytes, i)) == Ok(ms[i])
  }

  /** A stored membership is what its header and rows read as, and nothing else is. */
  lemma MembersIffRead(bytes: seq<Byte>, key: Key, ms: seq<Member>)
    ensures IsMembers(bytes, key, ms) <==>
              ReadHeader(bytes) == Ok(Header(key, MEMBERS, |ms|, MemberPages(ms))) && RowsRead(bytes, key, ms)
  {
    hide HeaderBytes, MemberTable, ReadHeader, MemberPages, ReadMember, MemberBytes, MemberOk, Row, Ascending;
    if IsMembers(bytes, key, ms) {
      MembersHeader(bytes, key, ms);
      forall i | 0 <= i < |ms| ensures ReadMember(key, Row(bytes, i)) == Ok(ms[i]) {
        MembersRow(bytes, key, ms, i);
      }
    }
    if ReadHeader(bytes) == Ok(Header(key, MEMBERS, |ms|, MemberPages(ms))) && RowsRead(bytes, key, ms) {
      MembersMake(bytes, key, ms);
    }
  }

  lemma MembersMake(bytes: seq<Byte>, key: Key, ms: seq<Member>)
    requires ReadHeader(bytes) == Ok(Header(key, MEMBERS, |ms|, MemberPages(ms))) && RowsRead(bytes, key, ms)
    ensures IsMembers(bytes, key, ms)
  {
    hide HeaderBytes, MemberTable, ReadHeader, MemberPages, ReadMember, MemberBytes, MemberOk;
    HeaderIsCanonical(bytes);
    var rows := bytes[HEADER_BYTES..];
    forall i | 0 <= i < |ms| ensures rows[16 * i..16 * i + 16] == MemberBytes(ms[i]) && MemberOk(key, ms[i]) {
      assert rows[16 * i..16 * i + 16] == Row(bytes, i);
      MemberIsCanonical(key, Row(bytes, i));
    }
    RowsMake(rows, ms);
    assert bytes == bytes[..HEADER_BYTES] + rows;
  }

  /** Reads the owner records in order, and the pages they lie on. */
  method ReadRows(bytes: seq<Byte>, key: Key, count: nat)
      returns (r: Result<seq<Member>, R.BitmapError>, mask: set<nat>)
    requires |bytes| == HEADER_BYTES + 16 * count
    ensures r.Ok? ==> RowsRead(bytes, key, r.value) && mask == MemberPages(r.value)
    ensures forall ms :: RowsRead(bytes, key, ms) ==> r == Ok(ms)
  {
    hide ReadMember, Row, MemberPages, Less;
    var members: seq<Member> := [];
    mask := {};
    NoMembers();
    var i := 0;
    while i < count
      invariant i <= count && |members| == i && mask == MemberPages(members) && Ascending(members)
      invariant forall k | 0 <= k < i :: ReadMember(key, Row(bytes, k)) == Ok(members[k])
    {
      var row := ReadMember(key, Row(bytes, i));
      if row.Err? || (i > 0 && !Less(members[i - 1].root, row.value.root)) {
        forall ms: seq<Member> | RowsRead(bytes, key, ms)
          ensures row == Ok(ms[i]) && (i > 0 ==> members[i - 1] == ms[i - 1] && Less(ms[i - 1].root, ms[i].root))
        {
        }
        return Err(R.InvalidState), {};
      }
      NextMember(members, row.value);
      members := members + [row.value];
      mask := mask + {row.value.root.block % 256};
      i := i + 1;
    }
    forall ms | RowsRead(bytes, key, ms) ensures ms == members {
      assert forall k | 0 <= k < count :: ReadMember(key, Row(bytes, k)) == Ok(ms[k]) && ms[k] == members[k];
    }
    r := Ok(members);
  }

  lemma NoMembers()
    ensures MemberPages([]) == {}
  {
  }

  /** Validates every owner record and the exact page summary. */
  method OpenMembers(bytes: seq<Byte>) returns (r: Result<(Key, seq<Member>), R.BitmapError>)
    ensures r.Ok? ==> IsMembers(bytes, r.value.0, r.value.1)
    ensures forall key, ms :: IsMembers(bytes, key, ms) ==> r == Ok((key, ms))
  {
    hide IsMembers, ReadHeader, RowsRead, MemberPages;
    forall key, ms | IsMembers(bytes, key, ms)
      ensures ReadHeader(bytes) == Ok(Header(key, MEMBERS, |ms|, MemberPages(ms))) && RowsRead(bytes, key, ms)
      ensures |ms| <= R.GROUP_PAGES * key.domain && |bytes| == HEADER_BYTES + 16 * |ms|
    {
      MembersIffRead(bytes, key, ms);
      MembersHeader(bytes, key, ms);
    }
    var header := ReadHeader(bytes);
    if header.Err? {
      return Err(R.InvalidState);
    }
    var h := header.value;
    if h.kind != MEMBERS || h.count > R.GROUP_PAGES * h.key.domain || |bytes| != HEADER_BYTES + h.count * 16 {
      return Err(R.InvalidState);
    }
    var members, mask := ReadRows(bytes, h.key, h.count);
    if members.Err? || mask != h.mask {
      return Err(R.InvalidState);
    }
    RowCount(bytes, h.key, members.value, h.count);
    MembersIffRead(bytes, h.key, members.value);
    r := Ok((h.key, members.value));
  }

  lemma RowCount(bytes: seq<Byte>, key: Key, ms: seq<Member>, count: nat)
    requires RowsRead(bytes, key, ms) && |bytes| == HEADER_BYTES + count * 16
    ensures |ms| == count
  {
  }

  lemma NextMember(ms: seq<Member>, m: Member)
    requires Ascending(ms) && (ms != [] ==> Less(ms[|ms| - 1].root, m.root))
    ensures Ascending(ms + [m]) && MemberPages(ms + [m]) == MemberPages(ms) + {m.root.block % 256}
  {
    var all := ms + [m];
    forall i, j | 0 <= i < j < |all| ensures Less(all[i].root, all[j].root) {
      assert j == |ms| && i < |ms| - 1 ==> Less(ms[i].root, ms[|ms| - 1].root);
    }
    forall p | p in MemberPages(ms) + {m.root.block % 256} ensures p in MemberPages(all) {
      if p in MemberPages(ms) {
        var i :| 0 <= i < |ms| && ms[i].root.block % 256 == p;
        assert all[i].root.block % 256 == p;
      } else {
        assert all[|ms|].root.block % 256 == p;
      }
    }
  }

  // ----- binding liveness to membership -----

  /** Immutable membership and its liveness record under one identity. */
  datatype SegmentGroup = SegmentGroup(key: Key, members: seq<Member>, record: R.Record)

  /** The bits of the members on one page. */
  ghost function PageMembers(key: Key, ms: seq<Member>, page: nat): set<nat>
    requires MembersOk(key, ms)
  {
    AllInGroup(key, ms);
    MemberBits(key.base, ms, page)
  }

  lemma AllInGroup(key: Key, ms: seq<Member>)
    requires MembersOk(key, ms)
    ensures forall i | 0 <= i < |ms| :: InGroup(key.base, ms[i].root)
  {
    forall i | 0 <= i < |ms| ensures InGroup(key.base, ms[i].root) {
      assert MemberOk(key, ms[i]);
    }
  }

  /** Only members are live, in the width the whole membership of the page needs. */
  ghost predicate LivePage(sg: SegmentGroup, page: nat)
    requires MembersOk(sg.key, sg.members) && R.Opens(sg.record) && page in sg.record.mask
  {
    var bytes := R.Stored(sg.record, page);
    var all := PageMembers(sg.key, sg.members, page);
    && R.BitsOf(bytes) <= all
    && |bytes| == R.Width(all, sg.key.domain)
    && R.Decode(sg.record.kind, sg.record.domain, bytes).Ok?
  }

  /** What opening a group accepts. */
  ghost predicate GroupValid(sg: SegmentGroup) {
    && MembersOk(sg.key, sg.members)
    && RecordOk(sg.key, sg.record)
    && sg.record.kind == R.Liveness
    && sg.record.mask == MemberPages(sg.members)
    && forall page | page in sg.record.mask :: LivePage(sg, page)
  }

  ghost predicate IsGroup(members: seq<Byte>, live: seq<Byte>, sg: SegmentGroup) {
    IsMembers(members, sg.key, sg.members) && IsBitmap(live, sg.key, sg.record) && GroupValid(sg)
  }

  /** The group as queries, merges and retirement see it. */
  function Decoded(sg: SegmentGroup): Group
    requires R.Opens(sg.record)
  {
    Group(sg.key.base, sg.members, R.Contents(sg.record))
  }

  /** A page has members exactly when it is summarised. */
  lemma PageHasMembers(key: Key, ms: seq<Member>, page: nat)
    requires MembersOk(key, ms)
    ensures page in MemberPages(ms) <==> PageMembers(key, ms, page) != {}
    ensures forall x | x in PageMembers(key, ms, page) :: x < key.domain
  {
    AllInGroup(key, ms);
    assert forall i | 0 <= i < |ms| :: ms[i].root.block % 256 == page <==> ms[i].root.block == key.base + page;
    if page in MemberPages(ms) {
      var i :| 0 <= i < |ms| && ms[i].root.block % 256 == page;
      assert BitOf(ms[i].root) in PageMembers(key, ms, page);
    }
  }

  /** An opened group is the group its consumers rely on. */
  lemma ValidIsGroup(sg: SegmentGroup)
    requires GroupValid(sg)
    ensures GroupOk(Decoded(sg))
  {
    hide R.Opens, R.Stored, R.BitsOf, R.Decode, R.Width, MemberPages, Ascending, MemberOk;
    var g := Decoded(sg);
    AllInGroup(sg.key, sg.members);
    forall page: nat
      ensures page in g.live <==> MemberBits(g.base, g.members, page) != {}
      ensures page in g.live ==> g.live[page] <= MemberBits(g.base, g.members, page)
    {
      PageHasMembers(sg.key, sg.members, page);
      assert page in sg.record.mask ==> LivePage(sg, page);
    }
  }

  /** Decodes one page and compares it with the membership, in content and in width. */
  method CheckPage(key: Key, ms: seq<Member>, view: View, page: nat) returns (ok: bool)
    requires MembersOk(key, ms) && R.OpenedOk(view.bitmap) && RecordOk(key, view.bitmap.record)
    requires page in view.bitmap.record.mask && page in MemberPages(ms)
    ensures ok <==> LivePage(SegmentGroup(key, ms, view.bitmap.record), page)
  {
    hide R.Opens, R.Stored, R.BitsOf, R.Decode, R.Width, MembersOk, MemberPages, R.PagesBelow;
    var record := view.bitmap.record;
    AllInGroup(key, ms);
    MembersAscend(key, ms);
    var all := PageOffsets(key.base, ms, page);
    var current := R.Offsets(view.bitmap, page);
    DecodesTo(record.kind, record.domain, R.Stored(record, page));
    if current.Err? || !(current.value <= all) {
      return false;
    }
    var width := PayloadBytes(view.bitmap, page);
    ok := width == R.Width(all, key.domain);
  }

  /** Binds one liveness image to the exact membership, page by page. */
  method OpenGroup(members: seq<Byte>, live: seq<Byte>) returns (r: Result<SegmentGroup, R.BitmapError>)
    ensures r.Ok? ==> IsGroup(members, live, r.value) && GroupOk(Decoded(r.value))
    ensures forall sg :: IsGroup(members, live, sg) ==> r == Ok(sg)
  {
    hide IsMembers, IsBitmap, MembersOk, RecordOk, MemberPages, R.Opens, R.OpenedOk, LivePage;
    var owners := OpenMembers(members);
    if owners.Err? {
      return Err(R.InvalidState);
    }
    var view := OpenBitmap(live);
    if view.Err? {
      return Err(R.InvalidState);
    }
    var (key, ms) := owners.value;
    var record := view.value.bitmap.record;
    var sg := SegmentGroup(key, ms, record);
    Candidate(members, live, key, ms, view.value.key, record);
    if record.kind != R.Liveness || view.value.key != key || record.mask != MemberPages(ms) {
      return Err(R.InvalidState);
    }
    Parts(members, live, sg);
    var page := 0;
    while page < R.GROUP_PAGES
      invariant page <= R.GROUP_PAGES && forall p | p in record.mask && p < page :: LivePage(sg, p)
    {
      if page in record.mask {
        var checked := CheckPage(key, ms, view.value, page);
        if !checked {
          return Err(R.InvalidState);
        }
      }
      page := page + 1;
    }
    ValidIsGroup(sg);
    r := Ok(sg);
  }

  lemma MembersAscend(key: Key, ms: seq<Member>)
    requires MembersOk(key, ms)
    ensures Ascending(ms)
  {
  }

  lemma DecodesTo(kind: R.Kind, domain: nat, bytes: seq<Byte>)
    requires bytes != []
    ensures R.Decode(kind, domain, bytes).Ok? ==> R.Decode(kind, domain, bytes).value == R.BitsOf(bytes)
  {
  }

  /** The only group two files can be. */
  lemma Candidate(members: seq<Byte>, live: seq<Byte>, key: Key, ms: seq<Member>, liveKey: Key, record: R.Record)
    requires IsBitmap(live, liveKey, record)
    requires forall k, m :: IsMembers(members, k, m) ==> k == key && m == ms
    requires forall k, x :: IsBitmap(live, k, x) ==> k == liveKey && x == record
    ensures forall sg :: IsGroup(members, live, sg) ==>
              sg == SegmentGroup(key, ms, record) && liveKey == key && GroupValid(sg)
  {
    hide IsMembers, IsBitmap, GroupValid;
  }

  lemma Parts(members: seq<Byte>, live: seq<Byte>, sg: SegmentGroup)
    requires IsMembers(members, sg.key, sg.members) && IsBitmap(live, sg.key, sg.record)
    ensures MembersOk(sg.key, sg.members) && RecordOk(sg.key, sg.record) && R.Opens(sg.record)
    ensures sg.record.domain == sg.key.domain && forall page | page in sg.record.mask :: page < R.GROUP_PAGES
  {
  }

  /** The stored width of a present page. */
  method PayloadBytes(o: R.Opened, page: nat) returns (n: nat)
    requires R.OpenedOk(o) && page in o.record.mask
    ensures n == |R.Stored(o.record, page)|
  {
    hide R.PagesBelow;
    R.RankIsPlace(o.record.mask, page, R.GROUP_PAGES);
    var rank := R.RankOf(o.record.mask, o.prefixes, page);
    R.SpanFits(o.record, rank);
    n := o.record.directory[rank].len;
  }

  // ----- groups that open -----

  /** Liveness of a whole membership. */
  ghost function FullLiveness(key: Key, ms: seq<Member>): map<nat, set<nat>>
    requires MembersOk(key, ms)
  {
    map page | page in MemberPages(ms) :: PageMembers(key, ms, page)
  }

  /** A membership written with all of its members live opens. */
  lemma FreshOpens(key: Key, ms: seq<Member>)
    requires MembersOk(key, ms)
    ensures R.Encodable(FullLiveness(key, ms), key.domain)
    ensures GroupValid(SegmentGroup(key, ms, R.RecordOf(R.Liveness, key.domain, FullLiveness(key, ms))))
  {
    hide R.Opens, R.RecordOf, R.Stored, R.Contents, R.BitsOf, R.Decode, R.Width, MemberPages, MembersOk, PageMembers,
        MaskOk;
    var live := FullLiveness(key, ms);
    MemberMask(key, ms);
    InMask(key, MemberPages(ms));
    forall page | page in live
      ensures page < R.GROUP_PAGES && live[page] != {} && forall x | x in live[page] :: x < key.domain
    {
      PageHasMembers(key, ms, page);
    }
    var record := R.RecordOf(R.Liveness, key.domain, live);
    R.WrittenContents(R.Liveness, key.domain, live);
    R.RecordMask(R.Liveness, key.domain, live);
    var sg := SegmentGroup(key, ms, record);
    HasKey(key, ms);
    assert record.mask == live.Keys == MemberPages(ms);
    forall page | page in record.mask ensures LivePage(sg, page) {
      WrittenWidth(R.Liveness, key.domain, live, page);
      assert page in live;
    }
  }

  lemma InMask(key: Key, mask: set<nat>)
    requires MaskOk(key, mask)
    ensures forall page | page in mask :: page < R.GROUP_PAGES
  {
  }

  lemma HasKey(key: Key, ms: seq<Member>)
    requires MembersOk(key, ms)
    ensures KeyOk(key)
  {
  }

  /** A written page has its minimal width and decodes. */
  lemma WrittenWidth(kind: R.Kind, domain: nat, m: map<nat, set<nat>>, page: nat)
    requires R.Encodable(m, domain) && page in m
    ensures var r := R.RecordOf(kind, domain, m);
            && R.Opens(r) && page in r.mask && r.kind == kind && r.domain == domain
            && R.Stored(r, page) == R.PageBytes(m[page], R.Width(m[page], domain))
            && R.BitsOf(R.Stored(r, page)) == m[page]
            && R.Decode(kind, domain, R.Stored(r, page)).Ok?
  {
    hide R.Pages, R.Width, R.PageBytes, R.Decode, R.BitsOf;
    var r := R.RecordOf(kind, domain, m);
    R.WrittenOpens(kind, domain, m);
    R.EveryPageListed(m.Keys, page);
    var i :| 0 <= i < |R.Pages(m.Keys)| && R.Pages(m.Keys)[i] == page;
    R.PagesIn(m.Keys);
    R.StoredAt(r, i);
    R.LaidPage(m, R.Pages(m.Keys), domain, i);
    R.PageDecodes(kind, domain, m[page]);
    DecodesTo(kind, domain, R.Stored(r, page));
  }

  /** The payload with some bits cleared, in the same directory. */
  ghost predicate Narrowed(before: R.Record, after: R.Record)
    requires R.Opens(before)
  {
    && after == before.(payload := after.payload) && |after.payload| == |before.payload|
    && R.Opens(after)
    && forall page | page in before.mask :: R.BitsOf(R.Stored(after, page)) <= R.BitsOf(R.Stored(before, page))
  }

  /** Clearing bits keeps a group opening. */
  lemma NarrowedOpens(sg: SegmentGroup, after: R.Record)
    requires GroupValid(sg) && Narrowed(sg.record, after)
    ensures GroupValid(sg.(record := after))
  {
    hide R.Opens, R.BitsOf, R.Decode, R.Width, MemberPages, MembersOk, PageMembers, MaskOk, R.Stored;
    var cleared := sg.(record := after);
    forall page | page in after.mask ensures LivePage(cleared, page) {
      assert LivePage(sg, page);
      SameWidth(sg.record, after, page);
      PageHasMembers(sg.key, sg.members, page);
      R.LivenessDecodes(after.domain, R.Stored(after, page));
    }
  }

  lemma SameWidth(before: R.Record, after: R.Record, page: nat)
    requires R.Opens(before) && R.Opens(after) && page in before.mask
    requires after == before.(payload := after.payload)
    ensures |R.Stored(after, page)| == |R.Stored(before, page)|
  {
    R.RankIsPlace(before.mask, page, R.GROUP_PAGES);
    R.SpanFits(before, R.Rank(before.mask, page));
    R.SpanFits(after, R.Rank(before.mask, page));
  }
}
