/**
 What compaction writes, keeps and gives back: how output pages are filled and where their
 blocks come from, which pages each mode keeps, and what the reported numbers add up to.
 */
module CompactionAccounts {
  import opened FiniteSets
  import opened Outcomes
  import opened PostingPages
  import opened PostingSteps
  import opened CompactionFacts
  import opened CompactionRuns

  // ----- the size of a page -----

  /** The bytes of a reference behind the previous one of its page; only ordered pages have a size. */
  function RefBytes(r: OwnerRef, previous: Option<OwnerRef>): nat {
    if previous.Some? && !Before(previous.value, r) then 0 else DeltaLen(r, previous)
  }

  function PageBytes(refs: seq<OwnerRef>, direct: bool): nat {
    if refs == [] then if direct then DIRECT_HEADER else POSTING_HEADER
    else
      var init := refs[..|refs| - 1];
      PageBytes(init, direct) + RefBytes(refs[|refs| - 1], LastOf(init)) + if direct then 8 else 0
  }

  /** A builder's length is the size of the page it holds. */
  ghost predicate Measured(b: Builder) {
    b.length == PageBytes(b.refs, b.direct) <= CAPACITY
  }

  lemma NewMeasured(block: nat, t: TermRef, direct: bool)
    ensures Measured(NewBuilder(block, t, direct))
  {
  }

  /** A push is refused exactly when the larger page would not fit. */
  lemma PushMeasures(b: Builder, r: OwnerRef, root: nat)
    requires Measured(b) && Push(b, r, root).Ok?
    ensures Push(b, r, root).value.None? <==> PageBytes(b.refs + [r], b.direct) > CAPACITY
    ensures Push(b, r, root).value.Some? ==>
              var c := Push(b, r, root).value.value;
              Measured(c) && c.refs == b.refs + [r] && c.direct == b.direct && c.block == b.block
  {
    hide DeltaLen;
    assert (b.refs + [r])[..|b.refs|] == b.refs;
  }

  // ----- filled pages -----

  ghost predicate FilledPage(p: Pages, b: nat, direct: bool) {
    b < |p| && p[b].Posting? && p[b].refs != [] && PageBytes(p[b].refs, direct) <= CAPACITY
  }

  /** Page `b` had no room for `r`. */
  ghost predicate NoRoom(p: Pages, b: nat, r: OwnerRef, direct: bool) {
    b < |p| && p[b].Posting? && PageBytes(p[b].refs + [r], direct) > CAPACITY
  }

  /** The first reference of page `i + 1` did not fit on page `i`. */
  ghost predicate Followed(p: Pages, bs: seq<nat>, i: nat, direct: bool) {
    i + 1 < |bs| && bs[i + 1] < |p| && p[bs[i + 1]].Posting? && p[bs[i + 1]].refs != []
    && NoRoom(p, bs[i], p[bs[i + 1]].refs[0], direct)
  }

  /** Pages that fit, none empty, each filled before the next was begun. */
  ghost predicate Packed(p: Pages, bs: seq<nat>, direct: bool) {
    && (forall i | 0 <= i < |bs| :: FilledPage(p, bs[i], direct))
    && (forall i: nat | i < |bs| - 1 :: Followed(p, bs, i, direct))
  }

  lemma PackedSame(p: Pages, q: Pages, bs: seq<nat>, direct: bool)
    requires Packed(p, bs, direct)
    requires forall i | 0 <= i < |bs| :: bs[i] < |p| && bs[i] < |q| && q[bs[i]].Posting? && p[bs[i]].Posting? &&
               q[bs[i]].refs == p[bs[i]].refs
    ensures Packed(q, bs, direct)
  {
    hide PageBytes;
    forall i: nat | i < |bs| - 1 ensures Followed(q, bs, i, direct) {
      assert Followed(p, bs, i, direct);
    }
    forall i | 0 <= i < |bs| ensures FilledPage(q, bs[i], direct) {
      assert FilledPage(p, bs[i], direct);
    }
  }

  lemma PackedMore(p: Pages, bs: seq<nat>, b: nat, direct: bool)
    requires Packed(p, bs, direct) && FilledPage(p, b, direct)
    requires bs != [] ==> NoRoom(p, TailOf(bs), p[b].refs[0], direct)
    ensures Packed(p, bs + [b], direct)
  {
    hide PageBytes;
    var cs := bs + [b];
    forall i: nat | i < |cs| - 1 ensures Followed(p, cs, i, direct) {
      if i < |bs| - 1 {
        assert Followed(p, bs, i, direct);
      }
    }
  }

  // ----- the draft's account -----

  function Least(a: nat, b: nat): nat {
    if a < b then a else b
  }

  /** Output blocks come from the free list while it lasts, and from extensions after that. */
  ghost predicate Counted(p0: Pages, s0: Shape, p: Pages, s: Shape, d: Draft) {
    var begun := |s.journal| + if d.output.Some? then 1 else 0;
    && d.reused == Least(begun, |s0.free|)
    && |p| == |p0| + begun - d.reused
    && |s.free| == |s0.free| - Least(|s.journal|, |s0.free|)
    && (d.output.Some? ==> d.output.value.block < |p| && (p[d.output.value.block].Free? <==> s.free != []))
  }

  /** The page being filled is the next one behind the stored output. */
  ghost predicate Filling(p: Pages, s: Shape, direct: bool, d: Draft) {
    && Packed(p, s.journal, direct)
    && (d.output.Some? ==>
          var b := d.output.value;
          && Measured(b) && b.direct == direct && b.refs != []
          && (s.journal != [] ==> NoRoom(p, TailOf(s.journal), b.refs[0], direct)))
  }

  ghost predicate Accounted(p0: Pages, s0: Shape, p: Pages, s: Shape, direct: bool, d: Draft) {
    Counted(p0, s0, p, s, d) && Filling(p, s, direct, d)
  }

  /** `written` blocks were used: the free list's first, and beyond those the relation grew. */
  ghost predicate Paid(p: Pages, s: Shape, q: Pages, s': Shape, written: nat, reused: nat) {
    reused == Least(written, |s.free|) && |q| == |p| + written - reused && |s'.free| == |s.free| - reused
  }

  lemma EmptyAccount(p: Pages, s: Shape, direct: bool, meta: Page)
    requires s.journal == []
    ensures Accounted(p, s, p, s, direct, Draft(meta, None, 0, 0))
  {
  }

  /** The batch of `persist_output` stores the builder's page and takes its block off the free list. */
  ghost predicate StoredPage(p: Pages, s: Shape, q: Pages, s': Shape, b: Builder) {
    && |q| == |p| && b.block < |p| && (p[b.block].Free? ==> s.free != [])
    && s'.free == (if p[b.block].Free? then s.free[1..] else s.free)
    && s'.journal == s.journal + [b.block]
    && q[b.block].Posting? && q[b.block].refs == b.refs
    && (forall i | 0 <= i < |s.journal| ::
          && s.journal[i] < |p| && p[s.journal[i]].Posting?
          && q[s.journal[i]].Posting? && q[s.journal[i]].refs == p[s.journal[i]].refs)
  }

  lemma StoredPageIs(p: Pages, s: Shape, b: Builder)
    requires TailReady(p, s) && Finish(b).Ok? && Storable(p, s, b.block, Finish(b).value)
    requires Good(p, s)
    ensures StoredPage(p, s, Stored(p, b.block, Finish(b).value), StoredShape(p, s, b.block), b)
  {
    hide TermsOk, PagesOk, FreeOk, PostingsOk, BucketsOk, JournalOk, Sorted, Resolves, AllRefsOf, PageOk, Stored;
    StoredChain(p, s, b.block, Finish(b).value);
  }

  lemma StoredAccount(p0: Pages, s0: Shape, p: Pages, s: Shape, q: Pages, s': Shape, direct: bool, d: Draft, meta: Page)
    requires Accounted(p0, s0, p, s, direct, d) && d.output.Some? && StoredPage(p, s, q, s', d.output.value)
    ensures Accounted(p0, s0, q, s', direct, Draft(meta, None, d.written + 1, d.reused))
    ensures s'.journal != [] && TailOf(s'.journal) < |q| && q[TailOf(s'.journal)].Posting?
    ensures q[TailOf(s'.journal)].refs == d.output.value.refs
  {
    hide PageBytes, Packed;
    var b := d.output.value;
    StoredPacked(p, s, q, direct, b, s');
  }

  lemma StoredPacked(p: Pages, s: Shape, q: Pages, direct: bool, b: Builder, s': Shape)
    requires Packed(p, s.journal, direct) && StoredPage(p, s, q, s', b)
    requires Measured(b) && b.direct == direct && b.refs != []
    requires s.journal != [] ==> NoRoom(p, TailOf(s.journal), b.refs[0], direct)
    ensures Packed(q, s'.journal, direct)
  {
    hide PageBytes, Packed;
    PackedSame(p, q, s.journal, direct);
    PackedMore(q, s.journal, b.block, direct);
  }

  /** A block was taken, by extension exactly when the free list is empty, and holds one reference. */
  lemma OpenedAccount(p0: Pages, s0: Shape, p: Pages, q: Pages, s: Shape, direct: bool, d: Draft, d': Draft,
      t: TermRef, ref: OwnerRef, root: nat)
    requires Accounted(p0, s0, p, s, direct, d) && d.output.None? && d'.output.Some?
    requires Push(NewBuilder(d'.output.value.block, t, direct), ref, root) == Ok(d'.output)
    requires s.journal != [] ==> NoRoom(p, TailOf(s.journal), ref, direct)
    requires if s.free == [] then q == p + [Zero] && d'.output.value.block == |p| && d'.reused == d.reused
             else q == p && d'.output.value.block == s.free[0] < |p| && p[s.free[0]].Free? && d'.reused == d.reused + 1
    ensures Accounted(p0, s0, q, s, direct, d')
  {
    hide PageBytes, Packed, FilledPage, Followed;
    NewMeasured(d'.output.value.block, t, direct);
    PushMeasures(NewBuilder(d'.output.value.block, t, direct), ref, root);
    ExtendedPacked(p, s.journal, direct);
  }

  lemma ExtendedPacked(p: Pages, bs: seq<nat>, direct: bool)
    requires Packed(p, bs, direct)
    ensures Packed(p + [Zero], bs, direct)
  {
    hide PageBytes;
    assert forall i | 0 <= i < |bs| :: FilledPage(p, bs[i], direct);
    PackedSame(p, p + [Zero], bs, direct);
  }

  lemma PushedAccount(p0: Pages, s0: Shape, p: Pages, s: Shape, direct: bool, d: Draft, ref: OwnerRef, root: nat)
    requires Accounted(p0, s0, p, s, direct, d) && d.output.Some?
    requires Push(d.output.value, ref, root).Ok?
    ensures Push(d.output.value, ref, root).value.Some? ==>
              Accounted(p0, s0, p, s, direct, d.(output := Push(d.output.value, ref, root).value))
    ensures Push(d.output.value, ref, root).value.None? ==> PageBytes(d.output.value.refs + [ref], direct) > CAPACITY
  {
    hide PageBytes, Packed;
    PushMeasures(d.output.value, ref, root);
  }

  // ----- what a mode keeps -----

  /** The number of leading pages that are sealed and entirely live. */
  ghost function LiveLead(p: Pages, bs: seq<nat>): nat {
    if bs == [] || !LiveSealed(p, bs[0]) then 0 else 1 + LiveLead(p, bs[1..])
  }

  lemma {:induction false} LeadIs(p: Pages, bs: seq<nat>, m: nat)
    requires m <= |bs| && forall i | 0 <= i < m :: LiveSealed(p, bs[i])
    requires m < |bs| ==> !LiveSealed(p, bs[m])
    ensures LiveLead(p, bs) == m
    decreases m
  {
    hide LiveSealed;
    if m > 0 {
      var rest := bs[1..];
      forall i | 0 <= i < m - 1 ensures LiveSealed(p, rest[i]) {
        assert rest[i] == bs[i + 1];
      }
      LeadIs(p, rest, m - 1);
    }
  }

  /** The pages a rewrite keeps: with retention, all leading live sealed pages but the last. */
  ghost function KeptBy(p: Pages, bs: seq<nat>, mode: Mode): nat {
    if mode == RetainSealedPrefix && LiveLead(p, bs) >= 2 then LiveLead(p, bs) - 1 else 0
  }

  lemma InspectedKept(p: Pages, s: Shape, t: TermRef, found: seq<nat>, st: ChainStats, mode: Mode)
    requires IsTerm(p, t) && t in s.active && TermOk(p, t, s.active[t]) && |p| <= NO_BLOCK
    requires Accepted(p, t, EntryOf(p, t).head, EntryOf(p, t).tail, Some(EntryOf(p, t).first), true, found)
    requires StatsOk(p, found, true, st)
    ensures KeptPages(if mode == RetainSealedPrefix then st.prefix else None) == KeptBy(p, s.active[t], mode)
  {
    hide Sorted, ResolveAll, AllRefs, LiveSealed, LiveLead, StatsCounts;
    ChainIsUnique(p, t, found, s.active[t]);
    var m :| PrefixAt(p, found, m, st.prefix);
    LeadIs(p, found, m);
  }

  /** Block `b` holds what it held, up to its link. */
  ghost predicate SamePosting(p: Pages, q: Pages, b: nat) {
    b < |p| && b < |q| && p[b].Posting? && q[b].Posting? && Relinked(q[b], p[b].next) == p[b]
  }

  /**
   The chain `bs` became `chain`: its first `k` blocks are kept, with the same pages up to the
   last one's link; no other block is shared; and the new pages are packed.
   */
  ghost predicate Rechained(p: Pages, bs: seq<nat>, q: Pages, chain: seq<nat>, k: nat, direct: bool) {
    && k < |bs| && k <= |chain| && chain[..k] == bs[..k]
    && (forall i | 0 <= i < k :: SamePosting(p, q, bs[i]))
    && (forall i | 0 <= i < k - 1 :: SamePosting(p, q, bs[i]) && q[bs[i]] == p[bs[i]])
    && (forall b | b in chain[k..] :: b !in bs)
    && Packed(q, chain[k..], direct)
  }

  /** Publishing keeps the prefix and puts the packed output behind it. */
  lemma PublishedChain(p0: Pages, s0: Shape, p: Pages, s: Shape, t: TermRef, k: nat, direct: bool,
      images: seq<(nat, Page)>)
    requires Retained(p0, s0, p, s) && t in s0.active
    requires PublishImages(p, s, t, k, images) && Publishable(p, s, t, k)
    requires Packed(p, s.journal, direct)
    requires Good(p, s)
    ensures Fits(p, images)
    ensures Rechained(p0, s0.active[t], Applied(p, images), Spliced(s.active[t], k, s.journal), k, direct)
  {
    hide TermsOk, PagesOk, FreeOk, PostingsOk, BucketsOk, JournalOk, Sorted, AllRefsOf, AllRefs, Packed, Applied,
      PublishedPages, OwnersKept, DictionariesKept, PublishImages, PostChain, KindsKept;
    PublishedIs(p, s, t, k, images);
    PublishEffect(p, s, t, k);
    var bs, q := s.active[t], Applied(p, images);
    var chain := Spliced(bs, k, s.journal);
    ChainBlocks(p, t, bs);
    ChainBlocks(p, t, s.journal);
    assert chain[k..] == s.journal && chain[..k] == bs[..k];
    forall i | 0 <= i < |bs| ensures p0[bs[i]] == p[bs[i]] && bs[i] < |p0| && bs[i] < |p| {
      KeptPage(p0, s0, p, s, t, i);
    }
    PackedSame(p, q, s.journal, direct);
  }

  lemma KeptIsPart(p: Pages, bs: seq<nat>, q: Pages, chain: seq<nat>, k: nat, direct: bool)
    requires Rechained(p, bs, q, chain, k, direct)
    ensures k < |bs| && k <= |chain|
  {
  }

  lemma RechainedAfter(p: Pages, bs: seq<nat>, q: Pages, r: Pages, chain: seq<nat>, k: nat, direct: bool)
    requires Rechained(p, bs, q, chain, k, direct)
    requires forall i | 0 <= i < |chain| :: chain[i] < |q| && chain[i] < |r| && r[chain[i]] == q[chain[i]]
    ensures Rechained(p, bs, r, chain, k, direct)
  {
    hide PageBytes, Packed;
    assert forall i | 0 <= i < k :: chain[..k][i] == bs[i];
    assert forall i | 0 <= i < |chain| - k :: chain[k..][i] == chain[k + i];
    PackedPostings(q, chain[k..], direct);
    PackedSame(q, r, chain[k..], direct);
  }

  lemma PackedPostings(p: Pages, bs: seq<nat>, direct: bool)
    requires Packed(p, bs, direct)
    ensures forall i | 0 <= i < |bs| :: bs[i] < |p| && p[bs[i]].Posting?
  {
    assert forall i | 0 <= i < |bs| :: FilledPage(p, bs[i], direct);
  }

  // ----- one term -----

  ghost predicate SamePages(p: Pages, q: Pages, bs: seq<nat>) {
    forall i | 0 <= i < |bs| :: bs[i] < |p| && bs[i] < |q| && q[bs[i]] == p[bs[i]]
  }

  /** A term whose chain is block for block and page for page as it was. */
  ghost predicate SameChain(p: Pages, s: Shape, q: Pages, s': Shape, t: TermRef) {
    t in s.active && t in s'.active && s'.active[t] == s.active[t] && SamePages(p, q, s.active[t])
  }

  /** A term that needed work, and what the mode made of its chain. */
  ghost predicate Worked(p: Pages, s: Shape, q: Pages, s': Shape, mode: Mode, t: TermRef) {
    && t in s.active && t in s'.active
    && !Clean(p, s.active[t], mode == DirectTid) && Clean(q, s'.active[t], mode == DirectTid)
    && Rechained(p, s.active[t], q, s'.active[t], KeptBy(p, s.active[t], mode), mode == DirectTid)
  }

  ghost predicate OthersSame(p: Pages, s: Shape, q: Pages, s': Shape, t: TermRef) {
    s'.active.Keys == s.active.Keys && forall u | u in s.active && u != t :: SameChain(p, s, q, s', u)
  }

  lemma ReplacedOthers(p: Pages, s: Shape, q: Pages, s': Shape, t: TermRef, direct: bool)
    requires Replaced(p, s, q, s', t, direct)
    ensures OthersSame(p, s, q, s', t)
  {
    hide OwnersKept, OneEntryMoved, Clean, AllRefsOf, LiveOnly;
    forall u | u in s.active && u != t ensures SameChain(p, s, q, s', u) {
      assert u in s.active - {t} && (s.active - {t})[u] == s.active[u];
    }
  }

  lemma RetainedChains(p: Pages, s: Shape, q: Pages, s': Shape)
    requires Retained(p, s, q, s')
    ensures s'.active == s.active && forall u | u in s.active :: SameChain(p, s, q, s', u)
    ensures OwnersKept(p, q) && s'.buckets == s.buckets
  {
    hide DictionariesKept, OwnersKept;
  }

  lemma OthersThen(p: Pages, s: Shape, q: Pages, s': Shape, r: Pages, s'': Shape, t: TermRef)
    requires OthersSame(p, s, q, s', t) && Retained(q, s', r, s'')
    ensures OthersSame(p, s, r, s'', t)
  {
    hide Retained;
    RetainedChains(q, s', r, s'');
    forall u | u in s.active && u != t ensures SameChain(p, s, r, s'', u) {
      assert SameChain(p, s, q, s', u) && SameChain(q, s', r, s'', u);
    }
  }

  lemma {:induction false} ReverseSize(bs: seq<nat>)
    ensures |Reverse(bs)| == |bs|
    decreases |bs|
  {
    if bs != [] {
      ReverseSize(bs[1..]);
    }
  }

  lemma DrainedSize(s: Shape)
    ensures |Drained(s)| == |s.journal| + |s.free|
  {
    ReverseSize(s.journal);
  }

  // ----- sums over terms -----

  ghost function Total(f: TermRef -> nat, ts: seq<TermRef>): nat {
    if ts == [] then 0 else Total(f, ts[..|ts| - 1]) + f(ts[|ts| - 1])
  }

  lemma {:induction false} TotalAppend(f: TermRef -> nat, a: seq<TermRef>, b: seq<TermRef>)
    ensures Total(f, a + b) == Total(f, a) + Total(f, b)
    decreases |b|
  {
    if b == [] {
      assert a + b == a;
    } else {
      TotalAppend(f, a, b[..|b| - 1]);
      assert (a + b)[..|a + b| - 1] == a + b[..|b| - 1];
    }
  }

  lemma {:induction false} TotalSame(f: TermRef -> nat, g: TermRef -> nat, ts: seq<TermRef>)
    requires forall t | t in ts :: f(t) == g(t)
    ensures Total(f, ts) == Total(g, ts)
    decreases |ts|
  {
    if ts != [] {
      TotalSame(f, g, ts[..|ts| - 1]);
    }
  }

  lemma TotalOne(f: TermRef -> nat, t: TermRef)
    ensures Total(f, [t]) == f(t) && Total(f, []) == 0
  {
    assert [t][..0] == [];
  }

  ghost function ChainOf(s: Shape, t: TermRef): seq<nat> {
    if t in s.active then s.active[t] else []
  }

  ghost function LengthOf(s: Shape): TermRef -> nat {
    t => |ChainOf(s, t)|
  }

  ghost function RefsOf(p: Pages, s: Shape): TermRef -> nat {
    t => |AllRefsOf(p, ChainOf(s, t))|
  }

  ghost function KeptOf(p: Pages, s: Shape, mode: Mode): TermRef -> nat {
    t => KeptBy(p, ChainOf(s, t), mode)
  }

  /** Exactly the terms in `done` were worked on; every other chain is as it was. */
  ghost predicate DidWork(p: Pages, s: Shape, q: Pages, s': Shape, mode: Mode, done: seq<TermRef>) {
    && OwnersKept(p, q) && s'.active.Keys == s.active.Keys && NoDuplicates(done)
    && (forall t | t in done :: Worked(p, s, q, s', mode, t))
    && (forall t | t in s.active && t !in done :: SameChain(p, s, q, s', t))
  }

  /**
   The numbers reported for `done`: the terms, the references dropped, the pages written and
   kept, and the pages of the old chains and of the journal that were given back.
   */
  ghost predicate Reported(p: Pages, s: Shape, q: Pages, s': Shape, mode: Mode, done: seq<TermRef>,
      a: CompactStats, b: CompactStats)
  {
    var kept := Total(KeptOf(p, s, mode), done);
    && b.rewrittenTerms == a.rewrittenTerms + |done|
    && b.removedPostings + Total(RefsOf(q, s'), done) == a.removedPostings + Total(RefsOf(p, s), done)
    && b.retainedPages == a.retainedPages + kept
    && b.writtenPages + kept == a.writtenPages + Total(LengthOf(s'), done)
    && b.reclaimedPages + |s'.journal| + kept == a.reclaimedPages + |s.journal| + Total(LengthOf(s), done)
  }

  /** Blocks are conserved: written pages reuse free blocks or extend, and reclaimed pages become free. */
  ghost predicate Conserved(p: Pages, s: Shape, q: Pages, s': Shape, a: CompactStats, b: CompactStats) {
    && |q| - |p| == (b.writtenPages - a.writtenPages) - (b.reusedPages - a.reusedPages)
    && |s'.free| - |s.free| == (b.reclaimedPages - a.reclaimedPages) - (b.reusedPages - a.reusedPages)
  }

  ghost predicate Accounts(p: Pages, s: Shape, q: Pages, s': Shape, mode: Mode, done: seq<TermRef>,
      a: CompactStats, b: CompactStats)
  {
    DidWork(p, s, q, s', mode, done) && Reported(p, s, q, s', mode, done, a, b) && Conserved(p, s, q, s', a, b)
  }

  // ----- accounts add up -----

  lemma AccountsSelf(p: Pages, s: Shape, mode: Mode, a: CompactStats)
    requires forall t | t in s.active :: SamePages(p, p, s.active[t])
    ensures Accounts(p, s, p, s, mode, [], a, a)
  {
  }

  lemma LeadSame(p: Pages, q: Pages, bs: seq<nat>)
    requires OwnersKept(p, q) && SamePages(p, q, bs)
    ensures LiveLead(p, bs) == LiveLead(q, bs)
    decreases |bs|
  {
    hide OwnersKept;
    if bs != [] {
      LiveSame(p, q, bs[0]);
      var rest := bs[1..];
      assert forall i | 0 <= i < |rest| :: rest[i] == bs[i + 1];
      LeadSame(p, q, rest);
    }
  }

  lemma LiveSame(p: Pages, q: Pages, b: nat)
    requires OwnersKept(p, q) && b < |p| && b < |q| && q[b] == p[b]
    ensures LiveSealed(p, b) == LiveSealed(q, b)
  {
    hide OwnersKept, Live;
    if p[b].Posting? {
      forall i | 0 <= i < |p[b].refs| ensures Live(p, p[b].refs[i]) == Live(q, p[b].refs[i]) {
        OwnersDecide(p, q, p[b].refs[i]);
      }
    }
  }

  lemma RefsSame(p: Pages, q: Pages, bs: seq<nat>)
    requires SamePages(p, q, bs)
    ensures AllRefsOf(q, bs) == AllRefsOf(p, bs)
  {
    if forall i | 0 <= i < |bs| :: bs[i] < |p| && p[bs[i]].Posting? {
      AllRefsFrame(p, q, bs);
    }
  }

  lemma CleanSame(p: Pages, q: Pages, bs: seq<nat>, direct: bool)
    requires OwnersKept(p, q) && SamePages(p, q, bs)
    ensures Clean(p, bs, direct) == Clean(q, bs, direct)
  {
    hide OwnersKept, Live;
    forall i | 0 <= i < |bs| && p[bs[i]].Posting? ensures AllLive(p, p[bs[i]].refs) == AllLive(q, p[bs[i]].refs) {
      forall n | 0 <= n < |p[bs[i]].refs| ensures Live(p, p[bs[i]].refs[n]) == Live(q, p[bs[i]].refs[n]) {
        OwnersDecide(p, q, p[bs[i]].refs[n]);
      }
    }
  }

  /** Work done earlier is not undone by work on other terms. */
  lemma WorkedThenSame(p: Pages, s: Shape, q: Pages, s': Shape, r: Pages, s'': Shape, mode: Mode, t: TermRef)
    requires Worked(p, s, q, s', mode, t) && SameChain(q, s', r, s'', t) && OwnersKept(q, r)
    ensures Worked(p, s, r, s'', mode, t)
  {
    hide OwnersKept, Clean, Rechained, LiveLead;
    CleanSame(q, r, s'.active[t], mode == DirectTid);
    RechainedAfter(p, s.active[t], q, r, s'.active[t], KeptBy(p, s.active[t], mode), mode == DirectTid);
  }

  /** Work on other terms does not change what a term needs. */
  lemma SameThenWorked(p: Pages, s: Shape, q: Pages, s': Shape, r: Pages, s'': Shape, mode: Mode, t: TermRef)
    requires SameChain(p, s, q, s', t) && Worked(q, s', r, s'', mode, t) && OwnersKept(p, q)
    ensures Worked(p, s, r, s'', mode, t)
  {
    hide OwnersKept, Clean, LiveLead, Packed;
    CleanSame(p, q, s.active[t], mode == DirectTid);
    LeadSame(p, q, s.active[t]);
  }

  lemma NotTwice(p: Pages, s: Shape, q: Pages, s': Shape, r: Pages, s'': Shape, mode: Mode, first: seq<TermRef>,
      more: seq<TermRef>)
    requires DidWork(p, s, q, s', mode, first) && DidWork(q, s', r, s'', mode, more)
    ensures NoDuplicates(first + more) && forall t | t in first :: t !in more
  {
    hide OwnersKept, Clean, Rechained, SamePages;
    forall t | t in first ensures t !in more {
      assert Worked(p, s, q, s', mode, t);
      assert t in more ==> Worked(q, s', r, s'', mode, t);
    }
    var all := first + more;
    forall i, j | 0 <= i < j < |all| ensures all[i] != all[j] {
      if i < |first| <= j {
        assert all[i] in first && all[j] in more;
      }
    }
  }

  lemma DidBoth(p: Pages, s: Shape, q: Pages, s': Shape, r: Pages, s'': Shape, mode: Mode, first: seq<TermRef>,
      more: seq<TermRef>)
    requires DidWork(p, s, q, s', mode, first) && DidWork(q, s', r, s'', mode, more)
    ensures DidWork(p, s, r, s'', mode, first + more)
  {
    hide OwnersKept, Worked;
    OwnersChain(p, q, r);
    NotTwice(p, s, q, s', r, s'', mode, first, more);
    forall t | t in first + more ensures Worked(p, s, r, s'', mode, t) {
      if t in first {
        WorkedIn(p, s, q, s', mode, t);
        WorkedThenSame(p, s, q, s', r, s'', mode, t);
      } else {
        WorkedIn(q, s', r, s'', mode, t);
        SameThenWorked(p, s, q, s', r, s'', mode, t);
      }
    }
    forall t | t in s.active && t !in first + more ensures SameChain(p, s, r, s'', t) {
      assert SameChain(p, s, q, s', t) && SameChain(q, s', r, s'', t);
    }
  }

  lemma WorkedIn(p: Pages, s: Shape, q: Pages, s': Shape, mode: Mode, t: TermRef)
    requires Worked(p, s, q, s', mode, t)
    ensures t in s.active && t in s'.active
  {
  }

  /** Sums over terms whose chains are the same in both states. */
  lemma SumsSame(p: Pages, s: Shape, q: Pages, s': Shape, mode: Mode, ts: seq<TermRef>)
    requires OwnersKept(p, q) && forall t | t in ts :: SameChain(p, s, q, s', t)
    ensures Total(LengthOf(s), ts) == Total(LengthOf(s'), ts)
    ensures Total(RefsOf(p, s), ts) == Total(RefsOf(q, s'), ts)
    ensures Total(KeptOf(p, s, mode), ts) == Total(KeptOf(q, s', mode), ts)
  {
    hide OwnersKept, SamePages, AllRefsOf, LiveLead, Total;
    forall t | t in ts
      ensures LengthOf(s)(t) == LengthOf(s')(t) && RefsOf(p, s)(t) == RefsOf(q, s')(t)
      ensures KeptOf(p, s, mode)(t) == KeptOf(q, s', mode)(t)
    {
      assert SameChain(p, s, q, s', t);
      RefsSame(p, q, s.active[t]);
      LeadSame(p, q, s.active[t]);
    }
    TotalSame(LengthOf(s), LengthOf(s'), ts);
    TotalSame(RefsOf(p, s), RefsOf(q, s'), ts);
    TotalSame(KeptOf(p, s, mode), KeptOf(q, s', mode), ts);
  }

  /** The reports of two stretches of work add up to the report of both. */
  lemma AccountsTrans(p: Pages, s: Shape, q: Pages, s': Shape, r: Pages, s'': Shape, mode: Mode, first: seq<TermRef>,
      more: seq<TermRef>, a: CompactStats, b: CompactStats, c: CompactStats)
    requires Accounts(p, s, q, s', mode, first, a, b) && Accounts(q, s', r, s'', mode, more, b, c)
    ensures Accounts(p, s, r, s'', mode, first + more, a, c)
  {
    hide OwnersKept, Worked, SameChain, LengthOf, RefsOf, KeptOf, Total;
    DidBoth(p, s, q, s', r, s'', mode, first, more);
    NotTwice(p, s, q, s', r, s'', mode, first, more);
    forall t | t in first ensures SameChain(q, s', r, s'', t) {
      WorkedIn(p, s, q, s', mode, t);
    }
    forall t | t in more ensures SameChain(p, s, q, s', t) {
      WorkedIn(q, s', r, s'', mode, t);
    }
    SumsSame(q, s', r, s'', mode, first);
    SumsSame(p, s, q, s', mode, more);
    TotalAppend(LengthOf(s), first, more);
    TotalAppend(LengthOf(s''), first, more);
    TotalAppend(RefsOf(p, s), first, more);
    TotalAppend(RefsOf(r, s''), first, more);
    TotalAppend(KeptOf(p, s, mode), first, more);
  }

  /** The account of a single term. */
  lemma AccountOne(p: Pages, s: Shape, q: Pages, s': Shape, mode: Mode, t: TermRef, a: CompactStats, b: CompactStats)
    requires OwnersKept(p, q) && OthersSame(p, s, q, s', t) && Worked(p, s, q, s', mode, t)
    requires s.journal == [] && s'.journal == []
    requires var k := KeptBy(p, s.active[t], mode);
      && b.rewrittenTerms == a.rewrittenTerms + 1
      && b.removedPostings == a.removedPostings + |AllRefsOf(p, s.active[t])| - |AllRefsOf(q, s'.active[t])|
      && b.retainedPages == a.retainedPages + k
      && b.writtenPages == a.writtenPages + |s'.active[t]| - k
      && b.reclaimedPages == a.reclaimedPages + |s.active[t]| - k
    requires Conserved(p, s, q, s', a, b)
    ensures Accounts(p, s, q, s', mode, [t], a, b)
  {
    hide OwnersKept, Clean, Rechained, SameChain, LiveLead, AllRefsOf, Total;
    TotalOne(LengthOf(s), t);
    TotalOne(LengthOf(s'), t);
    TotalOne(RefsOf(p, s), t);
    TotalOne(RefsOf(q, s'), t);
    TotalOne(KeptOf(p, s, mode), t);
  }

  /** Draining the journal is accounted for by its length alone. */
  lemma AccountRecovery(p: Pages, s: Shape, q: Pages, s': Shape, mode: Mode, a: CompactStats)
    requires Retained(p, s, q, s') && |q| == |p| && s'.journal == [] && Drained(s') == Drained(s)
    ensures Accounts(p, s, q, s', mode, [], a, a.(reclaimedPages := a.reclaimedPages + |s.journal|))
  {
    hide Retained, OwnersKept, SameChain, Drained;
    RetainedChains(p, s, q, s');
    DrainedSize(s);
    DrainedSize(s');
  }

  /** The terms a run worked on are exactly the reachable ones that needed it. */
  lemma WorkIsExact(p: Pages, s: Shape, q: Pages, s': Shape, mode: Mode, done: seq<TermRef>, t: TermRef)
    requires DidWork(p, s, q, s', mode, done)
    requires t in s.active && t in s'.active && Clean(q, s'.active[t], mode == DirectTid)
    ensures t in done <==> !Clean(p, s.active[t], mode == DirectTid)
  {
    hide OwnersKept, Clean, Rechained;
    if t !in done {
      CleanSame(p, q, s.active[t], mode == DirectTid);
    }
  }

  /** What one rewritten term adds to the report, its old pages given back included. */
  ghost predicate TermReport(p: Pages, s: Shape, q: Pages, s': Shape, mode: Mode, t: TermRef, a: CompactStats,
      b: CompactStats)
  {
    && t in s.active && t in s'.active
    && (var k := KeptBy(p, s.active[t], mode);
        && Rechained(p, s.active[t], q, s'.active[t], k, mode == DirectTid)
        && (var written := |s'.active[t]| - k;
            && b.rewrittenTerms == a.rewrittenTerms + 1
            && b.removedPostings == a.removedPostings + |AllRefsOf(p, s.active[t])| - |AllRefsOf(q, s'.active[t])|
            && b.retainedPages == a.retainedPages + k
            && b.writtenPages == a.writtenPages + written
            && b.reusedPages == a.reusedPages + Least(written, |s.free|)
            && b.reclaimedPages == a.reclaimedPages + |s.active[t]| - k))
  }

  /** The term was rewritten between `p` and `q`, and its old pages were drained between `q` and `r`. */
  lemma TermDone(p: Pages, s: Shape, q: Pages, s': Shape, r: Pages, s'': Shape, mode: Mode, t: TermRef,
      written: nat, reused: nat, a: CompactStats, b: CompactStats)
    requires Replaced(p, s, q, s', t, mode == DirectTid) && !Clean(p, s.active[t], mode == DirectTid)
    requires var k := KeptBy(p, s.active[t], mode);
      && k <= |s.active[t]| && s'.journal == s.active[t][k..] && s.journal == []
      && Rechained(p, s.active[t], q, s'.active[t], k, mode == DirectTid)
      && written == |s'.active[t]| - k && b.retainedPages == a.retainedPages + k
    requires Paid(p, s, q, s', written, reused)
    requires Retained(q, s', r, s'') && |r| == |q| && s''.journal == [] && Drained(s'') == Drained(s')
    requires b.rewrittenTerms == a.rewrittenTerms + 1
    requires b.removedPostings ==
               a.removedPostings + |AllRefsOf(p, s.active[t])| - |LiveOnly(p, AllRefsOf(p, s.active[t]))|
    requires b.writtenPages == a.writtenPages + written && b.reusedPages == a.reusedPages + reused
    requires b.reclaimedPages == a.reclaimedPages + |s'.journal|
    ensures TermReport(p, s, r, s'', mode, t, a, b) && Accounts(p, s, r, s'', mode, [t], a, b)
  {
    hide Retained, Rechained, Clean, OwnersKept, OneEntryMoved, ChainsKept, LiveOnly, AllRefsOf, LiveLead, Drained,
      OthersSame, Accounts, SamePages;
    var k := KeptBy(p, s.active[t], mode);
    ReplacedOthers(p, s, q, s', t, mode == DirectTid);
    RetainedChains(q, s', r, s'');
    OthersThen(p, s, q, s', r, s'', t);
    OwnersChain(p, q, r);
    DrainedSize(s');
    DrainedSize(s'');
    assert SameChain(q, s', r, s'', t);
    RefsSame(q, r, s'.active[t]);
    CleanSame(q, r, s'.active[t], mode == DirectTid);
    SamePagesRechained(p, s.active[t], q, r, s'.active[t], k, mode == DirectTid);
    AccountOne(p, s, r, s'', mode, t, a, b);
  }

  lemma SamePagesRechained(p: Pages, bs: seq<nat>, q: Pages, r: Pages, chain: seq<nat>, k: nat, direct: bool)
    requires Rechained(p, bs, q, chain, k, direct) && SamePages(q, r, chain)
    ensures Rechained(p, bs, r, chain, k, direct)
  {
    hide Rechained;
    RechainedAfter(p, bs, q, r, chain, k, direct);
  }

  lemma NoAccount(p: Pages, s: Shape, mode: Mode, a: CompactStats)
    requires Good(p, s)
    ensures Accounts(p, s, p, s, mode, [], a, a)
  {
    hide Good, Retained;
    RetainedSelf(p, s);
    RetainedChains(p, s, p, s);
    AccountsSelf(p, s, mode, a);
  }

  /** A term of a dictionary page that was reachable through a bucket all along. */
  lemma ReachedThrough(p: Pages, s: Shape, q: Pages, s': Shape, k: nat, i: nat, ts: seq<TermRef>, direct: bool)
    requires Forward(p, s, q, s', direct) && k < |s.buckets| && i < |s.buckets[k]|
    requires forall t | t in ts :: t.page == s.buckets[k][i] && IsTerm(q, t)
    ensures forall t | t in ts :: Reachable(p, s, t)
  {
    hide OwnersKept, StaysClean, Filtered;
    forall t | t in ts ensures Reachable(p, s, t) {
      assert t.page in s.buckets[k];
      assert IsTerm(p, t);
    }
  }

  lemma ReachedBefore(p: Pages, s: Shape, q: Pages, s': Shape, ts: seq<TermRef>, direct: bool)
    requires Forward(p, s, q, s', direct) && forall t | t in ts :: Reachable(q, s', t)
    ensures forall t | t in ts :: Reachable(p, s, t)
  {
    hide OwnersKept, StaysClean, Filtered;
    forall t | t in ts ensures Reachable(p, s, t) {
      assert Reachable(q, s', t);
      assert IsTerm(p, t);
    }
  }

  lemma WorkWasNeeded(p: Pages, s: Shape, q: Pages, s': Shape, mode: Mode, done: seq<TermRef>, a: CompactStats,
      b: CompactStats, t: TermRef)
    requires Accounts(p, s, q, s', mode, done, a, b) && (t in done ==> Reachable(p, s, t))
    requires Progress(p, s, q, s') && CleanBuckets(q, s', |s'.buckets|, mode == DirectTid)
    ensures t in done <==> Reachable(p, s, t) && t in s.active && !Clean(p, s.active[t], mode == DirectTid)
  {
    hide OwnersKept, Clean, Rechained, Progress, CleanBuckets, Reachable;
    if Reachable(p, s, t) {
      StillReachable(p, s, q, s', t);
      ReachableClean(q, s', t, mode == DirectTid);
      assert t in s.active;
      WorkIsExact(p, s, q, s', mode, done, t);
    }
  }
}
