/** Merging opened segment groups into stored files: identity checks, membership, liveness, postings. */
module GroupMergeFiles {
  import opened Outcomes
  import opened Varints
  import opened GroupFiles
  import opened GroupOpening
  import opened GroupedMembers
  import opened GroupedMerge
  import Q = GroupedQuery
  import R = RankBitmap

  /** The target is a fresh segment of the sources' group, and no source is given twice. */
  predicate PlanOk(key: Key, sources: seq<SegmentGroup>) {
    && |sources| <= MAX_MERGE_SOURCES
    && (forall i | 0 <= i < |sources| :: SourceFits(key, sources[i].key))
    && (forall i, j | 0 <= j < i < |sources| :: sources[j].key != sources[i].key)
  }

  predicate SourceFits(key: Key, source: Key) {
    source.base == key.base && source.relation == key.relation && source.domain == key.domain &&
        source.segment != key.segment
  }

  ghost predicate AllValid(sources: seq<SegmentGroup>) {
    forall i | 0 <= i < |sources| :: GroupValid(sources[i])
  }

  /** The sources as the merge reads them. */
  function Groups(sources: seq<SegmentGroup>): (gs: seq<Group>)
    requires AllValid(sources)
    ensures |gs| == |sources| && forall i | 0 <= i < |gs| :: gs[i] == Decoded(sources[i])
  {
    seq(|sources|, i requires 0 <= i < |sources| => Decoded(sources[i]))
  }

  lemma PlannedSources(key: Key, sources: seq<SegmentGroup>)
    requires AllValid(sources) && PlanOk(key, sources)
    ensures SourcesOk(Groups(sources)) && forall i | 0 <= i < |sources| :: Groups(sources)[i].base == key.base
  {
    hide GroupValid, GroupOk;
    forall i | 0 <= i < |sources| ensures GroupOk(Groups(sources)[i]) && Groups(sources)[i].base == key.base {
      ValidIsGroup(sources[i]);
      assert SourceFits(key, sources[i].key);
    }
  }

  /** Live members of the sources are valid members of the target. */
  lemma TargetMembers(key: Key, sources: seq<SegmentGroup>, emitted: seq<Member>)
    requires KeyOk(key) && AllValid(sources) && PlanOk(key, sources)
    requires Ascending(emitted) && forall m :: m in emitted <==> LiveSomewhere(Groups(sources), m)
    ensures MembersOk(key, emitted)
  {
    hide R.Opens, LivePage, MemberPages, RecordOk, IsLive, Ascending, R.Contents;
    forall n | 0 <= n < |emitted| ensures MemberOk(key, emitted[n]) {
      var m := emitted[n];
      assert m in emitted;
      var i :| 0 <= i < |sources| && LiveIn(Groups(sources)[i], m);
      assert SourceFits(key, sources[i].key) && GroupValid(sources[i]);
      var k :| 0 <= k < |sources[i].members| && sources[i].members[k] == m;
      assert MemberOk(sources[i].key, sources[i].members[k]);
    }
  }

  /** Merged liveness is the liveness of the whole merged membership. */
  lemma MergedIsFull(key: Key, gs: seq<Group>, emitted: seq<Member>, live: Q.Bitmap)
    requires MembersOk(key, emitted) && SourcesOk(gs) && forall i | 0 <= i < |gs| :: gs[i].base == key.base
    requires forall m :: m in emitted <==> LiveSomewhere(gs, m)
    requires GroupOk(Group(key.base, emitted, live)) && forall page :: Q.Offsets(live, page) == UnionLive(gs, page)
    ensures live == FullLiveness(key, emitted)
  {
    hide LiveSomewhere, SourcesOk, UnionLive, MembersOk, MemberPages;
    AllInGroup(key, emitted);
    forall page: nat
      ensures page in live <==> page in MemberPages(emitted)
      ensures page in live ==> live[page] == PageMembers(key, emitted, page)
    {
      MergedBits(gs, key.base, emitted, page);
      PageHasMembers(key, emitted, page);
      assert Q.Offsets(live, page) == UnionLive(gs, page);
    }
  }

  /** The stored target of a merge and what it opens as. */
  datatype Merged = Merged(members: seq<Byte>, live: seq<Byte>, group: SegmentGroup)

  /**
   Checks identities, visits the live members and writes membership and liveness. The files
   open, and the opened group has exactly the coordinates live in some source.
   */
  method MergeGroups(key: Key, sources: seq<SegmentGroup>) returns (r: Result<Merged, Q.Error>)
    requires KeyOk(key) && AllValid(sources)
    ensures r.Ok? <==> PlanOk(key, sources) && !Conflict(Groups(sources))
    ensures r.Err? ==> r.error == if |sources| > MAX_MERGE_SOURCES then Q.Limit else Q.InvalidState
    ensures r.Ok? ==> IsGroup(r.value.members, r.value.live, r.value.group) && r.value.group.key == key
    ensures r.Ok? ==> forall m :: m in r.value.group.members <==> LiveSomewhere(Groups(sources), m)
    ensures r.Ok? ==> forall page :: Q.Offsets(Decoded(r.value.group).live, page) == UnionLive(Groups(sources), page)
  {
    hide GroupValid, GroupOk, Conflict, LiveSomewhere, SourcesOk, UnionLive, Ascending, MembersOk, FullLiveness,
        R.RecordOf;
    hide R.Encodable, MembersBytes, BitmapBytes, R.Opens, MaskOk, Groups, MemberPages, R.Contents, Q.Offsets;
    if |sources| > MAX_MERGE_SOURCES {
      return Err(Q.Limit);
    }
    var planned := CheckPlan(key, sources);
    if !planned {
      return Err(Q.InvalidState);
    }
    PlannedSources(key, sources);
    var gs := Groups(sources);
    var visited := Visit(gs);
    if visited.Err? {
      return Err(visited.error);
    }
    var emitted := visited.value;
    TargetMembers(key, sources, emitted);
    var live := EncodeLiveness(gs, key.base, emitted);
    MergedIsFull(key, gs, emitted, live);
    FreshOpens(key, emitted);
    MemberMask(key, emitted);
    FullMask(key, emitted);
    PagesKnown(key, live);
    var image := EncodeBitmap(key, R.Liveness, live);
    var record := R.RecordOf(R.Liveness, key.domain, live);
    R.WrittenContents(R.Liveness, key.domain, live);
    var sg := SegmentGroup(key, emitted, record);
    r := Ok(Merged(MembersBytes(key, emitted), image.value, sg));
  }

  lemma FullMask(key: Key, ms: seq<Member>)
    requires MembersOk(key, ms)
    ensures FullLiveness(key, ms).Keys == MemberPages(ms)
  {
  }

  lemma PagesKnown(key: Key, live: Q.Bitmap)
    requires MaskOk(key, live.Keys)
    ensures forall page | page in live :: page < R.GROUP_PAGES
  {
  }

  /** Compares every source's identity with the target's and with those before it. */
  method CheckPlan(key: Key, sources: seq<SegmentGroup>) returns (ok: bool)
    requires |sources| <= MAX_MERGE_SOURCES
    ensures ok <==> PlanOk(key, sources)
  {
    for i := 0 to |sources|
      invariant forall k | 0 <= k < i :: SourceFits(key, sources[k].key)
      invariant forall k, j | 0 <= j < k < i :: sources[j].key != sources[k].key
    {
      if !SourceFits(key, sources[i].key) || exists j | 0 <= j < i :: sources[j].key == sources[i].key {
        return false;
      }
    }
    ok := true;
  }

  // ----- postings -----

  ghost predicate TermsOk(terms: seq<Option<View>>) {
    forall i | 0 <= i < |terms| && terms[i].Some? :: RecordOk(terms[i].value.key, terms[i].value.bitmap.record) &&
        R.OpenedOk(terms[i].value.bitmap)
  }

  /** One source's posting belongs to that source and decodes. */
  ghost predicate TermFits(source: SegmentGroup, term: Option<View>)
    requires term.Some? ==> R.Opens(term.value.bitmap.record)
  {
    term.Some? ==>
        term.value.key == source.key && term.value.bitmap.record.kind == R.Posting &&
        R.AllDecode(term.value.bitmap.record)
  }

  /** What each source stores of the term; a source without it stores nothing. */
  function Postings(terms: seq<Option<View>>): (ps: seq<Q.Bitmap>)
    requires TermsOk(terms)
    ensures |ps| == |terms| && forall i | 0 <= i < |ps| ::
              ps[i] == if terms[i].Some? then R.Contents(terms[i].value.bitmap.record) else map[]
  {
    seq(|terms|, i requires 0 <= i < |terms| =>
      if terms[i].Some? then R.Contents(terms[i].value.bitmap.record) else map[])
  }

  /** Only bits of the target's domain survive the masking. */
  lemma SurvivorsFit(key: Key, sources: seq<SegmentGroup>, ps: seq<Q.Bitmap>, page: nat, o: nat)
    requires AllValid(sources) && PlanOk(key, sources) && |ps| == |sources|
    requires o in UnionPosting(Groups(sources), ps, page)
    ensures page < R.GROUP_PAGES && o < key.domain && !(key.base == LAST_BASE && page == 255)
  {
    hide R.Stored, R.BitsOf, R.Decode, R.Width, R.Opens, MemberPages, PageMembers, MembersOk;
    var i :| 0 <= i < |sources| && o in Q.Offsets(Groups(sources)[i].live, page);
    var sg := sources[i];
    assert SourceFits(key, sg.key) && GroupValid(sg);
    assert Groups(sources)[i] == Decoded(sg) && o in Q.Offsets(R.Contents(sg.record), page);
    assert page in sg.record.mask;
    assert LivePage(sg, page);
    PageHasMembers(sg.key, sg.members, page);
    assert o in PageMembers(sg.key, sg.members, page);
  }

  /** One merged posting, after checking that every source's posting is its own and decodes. */
  method MergePosting(key: Key, sources: seq<SegmentGroup>, terms: seq<Option<View>>)
    returns (r: Result<(seq<Byte>, Q.Bitmap), Q.Error>)
    requires KeyOk(key) && AllValid(sources) && PlanOk(key, sources) && TermsOk(terms)
    ensures r.Ok? <==> |terms| == |sources| && forall i | 0 <= i < |terms| :: TermFits(sources[i], terms[i])
    ensures r.Ok? ==> IsBitmap(r.value.0, key, R.RecordOf(R.Posting, key.domain, r.value.1))
    ensures r.Ok? ==> R.Encodable(r.value.1, key.domain)
    ensures r.Ok? ==> forall page :: Q.Offsets(r.value.1, page) == UnionPosting(Groups(sources), Postings(terms), page)
  {
    hide GroupValid, UnionPosting, R.RecordOf, R.Opens, R.Contents, IsBitmap, R.AllDecode, R.OpenedOk, RecordOk;
    if |terms| != |sources| {
      return Err(Q.InvalidParameters);
    }
    TermsOpen(terms);
    for i := 0 to |terms|
      invariant forall k | 0 <= k < i :: TermFits(sources[k], terms[k])
    {
      if terms[i].Some? {
        var view := terms[i].value;
        if view.key != sources[i].key || view.bitmap.record.kind != R.Posting {
          return Err(Q.InvalidState);
        }
        var valid := R.ValidateAll(view.bitmap);
        if !valid {
          return Err(Q.InvalidState);
        }
      }
    }
    PostingPages(terms);
    var posting := EncodePosting(Groups(sources), Postings(terms));
    forall page | page in posting
      ensures page < R.GROUP_PAGES && !(key.base == LAST_BASE && page == 255) && forall x | x in posting[page] ::
                x < key.domain
    {
      assert Q.Offsets(posting, page) == UnionPosting(Groups(sources), Postings(terms), page);
      forall x | x in posting[page] ensures x < key.domain && page < R.GROUP_PAGES &&
          !(key.base == LAST_BASE && page == 255) {
        SurvivorsFit(key, sources, Postings(terms), page, x);
      }
      var some :| some in posting[page];
    }
    var bytes := EncodeBitmap(key, R.Posting, posting);
    r := Ok((bytes.value, posting));
  }

  lemma TermsOpen(terms: seq<Option<View>>)
    requires TermsOk(terms)
    ensures forall i | 0 <= i < |terms| && terms[i].Some? :: R.Opens(terms[i].value.bitmap.record)
  {
  }

  lemma PostingPages(terms: seq<Option<View>>)
    requires TermsOk(terms)
    ensures forall i | 0 <= i < |terms| :: Q.PagesInRange(Postings(terms)[i])
  {
  }

  // ----- merging stored groups commutes with querying -----

  /** Every term has a slot for each source, and each slot is that source's own posting. */
  ghost predicate ColumnsFit(sources: seq<SegmentGroup>, columns: seq<seq<Option<View>>>)
    requires forall t | 0 <= t < |columns| :: TermsOk(columns[t])
  {
    forall t | 0 <= t < |columns| :: ColumnFits(sources, columns[t])
  }

  ghost predicate ColumnFits(sources: seq<SegmentGroup>, column: seq<Option<View>>)
    requires TermsOk(column)
  {
    |column| == |sources| && forall i | 0 <= i < |column| :: TermFits(sources[i], column[i])
  }

  /** What each source stores, term by term. */
  ghost function Rows(columns: seq<seq<Option<View>>>, n: nat): (rows: seq<seq<Q.Bitmap>>)
    requires forall t | 0 <= t < |columns| :: TermsOk(columns[t]) && |columns[t]| == n
    ensures |rows| == n && forall i | 0 <= i < n :: |rows[i]| == |columns|
    ensures forall i, t | 0 <= i < n && 0 <= t < |columns| :: rows[i][t] == Postings(columns[t])[i]
  {
    seq(n, i requires 0 <= i < n => seq(|columns|, t requires 0 <= t < |columns| => Postings(columns[t])[i]))
  }

  /** The opened sources as the query evaluator sees them. */
  ghost function SourceViews(sources: seq<SegmentGroup>, columns: seq<seq<Option<View>>>): seq<Q.Segment>
    requires AllValid(sources) && forall t | 0 <= t < |columns| :: TermsOk(columns[t]) && |columns[t]| == |sources|
  {
    Views(Groups(sources), Rows(columns, |sources|))
  }

  /** Unions of liveness and of masked postings are the merge of the source views. */
  lemma UnionsMerge(sources: seq<SegmentGroup>, columns: seq<seq<Option<View>>>, view: Q.Segment)
    requires AllValid(sources) && forall t | 0 <= t < |columns| :: TermsOk(columns[t]) && |columns[t]| == |sources|
    requires |view.terms| == |columns| && forall page :: Q.Offsets(view.live, page) == UnionLive(Groups(sources), page)
    requires forall t, page: nat | 0 <= t < |columns| ::
               Q.Offsets(view.terms[t], page) == UnionPosting(Groups(sources), Postings(columns[t]), page)
    ensures IsMerge(SourceViews(sources, columns), view)
  {
    hide AllValid, TermsOk, UnionLive, UnionPosting, IsMerge, Q.Offsets;
    var gs, rows := Groups(sources), Rows(columns, |sources|);
    forall t, page: nat | 0 <= t < |columns|
      ensures Q.Offsets(view.terms[t], page) == UnionPosting(gs, Column(rows, t, |columns|), page)
    {
      assert Column(rows, t, |columns|) == Postings(columns[t]);
    }
    ViewsMerge(gs, rows, |columns|, view);
  }

  lemma GroupHasRecord(members: seq<Byte>, live: seq<Byte>, sg: SegmentGroup)
    requires IsGroup(members, live, sg)
    ensures R.Opens(sg.record)
  {
  }

  /** Writes one merged posting and opens its bytes again. */
  method MergeAndOpenPosting(key: Key, sources: seq<SegmentGroup>, column: seq<Option<View>>)
      returns (r: Result<Q.Bitmap, Q.Error>)
    requires KeyOk(key) && AllValid(sources) && PlanOk(key, sources) && TermsOk(column)
    ensures r.Ok? <==> ColumnFits(sources, column)
    ensures r.Ok? ==> forall page :: Q.Offsets(r.value, page) == UnionPosting(Groups(sources), Postings(column), page)
  {
    hide GroupValid, UnionPosting, R.RecordOf, R.Opens, R.Contents, IsBitmap, R.OpenedOk, RecordOk, PlanOk, R.Encodable,
        TermFits;
    var merged := MergePosting(key, sources, column);
    if merged.Err? {
      return Err(merged.error);
    }
    var reopened := OpenBitmap(merged.value.0);
    R.WrittenContents(R.Posting, key.domain, merged.value.1);
    r := Ok(R.Contents(reopened.value.bitmap.record));
  }

  /**
   Merges stored groups, and opens what was written. The opened group with its postings is the
   merge of the sources, so every program answers the union of the sources' answers if and only
   if the sources agree on the terms of shared live owners.
   */
  method MergeAndOpen(key: Key, sources: seq<SegmentGroup>, columns: seq<seq<Option<View>>>)
      returns (r: Result<Q.Segment, Q.Error>)
    requires KeyOk(key) && AllValid(sources) && forall t | 0 <= t < |columns| :: TermsOk(columns[t])
    ensures r.Ok? <==> PlanOk(key, sources) && !Conflict(Groups(sources)) && ColumnsFit(sources, columns)
    ensures r.Ok? ==> |r.value.terms| == |columns| && IsMerge(SourceViews(sources, columns), r.value)
    ensures r.Ok? ==>
              Agree(SourceViews(sources, columns), |columns|)
              == forall program | Q.WellFormed(program, |columns|) ::
                  Commutes(SourceViews(sources, columns), r.value, program)
  {
    hide GroupValid, GroupOk, UnionLive, UnionPosting, Conflict, PlanOk, TermsOk, IsMerge, Agree, Commutes, IsGroup,
        LiveSomewhere;
    hide Q.Offsets, R.Opens, R.Contents, Q.WellFormed, TermFits;
    var merged := MergeGroups(key, sources);
    if merged.Err? {
      return Err(merged.error);
    }
    var group := OpenGroup(merged.value.members, merged.value.live);
    GroupHasRecord(merged.value.members, merged.value.live, merged.value.group);
    var terms: seq<Q.Bitmap> := [];
    for t := 0 to |columns|
      invariant |terms| == t && forall k | 0 <= k < t :: ColumnFits(sources, columns[k])
      invariant forall k, page: nat | 0 <= k < t ::
                  Q.Offsets(terms[k], page) == UnionPosting(Groups(sources), Postings(columns[k]), page)
    {
      var posting := MergeAndOpenPosting(key, sources, columns[t]);
      if posting.Err? {
        return Err(posting.error);
      }
      terms := terms + [posting.value];
    }
    var view := Q.Segment(key.base, Decoded(group.value).live, terms);
    UnionsMerge(sources, columns, view);
    CommutesIffAgree(SourceViews(sources, columns), view);
    r := Ok(view);
  }
}
