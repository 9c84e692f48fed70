/**
 What compaction reads and writes, and the facts its methods rely on: traversals of posting
 chains, the batches that drain the journal, the output builder and the publication batch.
 */
module CompactionFacts {
  import opened FiniteSets
  import opened Outcomes
  import opened PostingPages
  import opened PostingSteps
  import Varints

  datatype Error = InvalidState | Limit | Host

  datatype Mode = Copy | RetainSealedPrefix | DirectTid

  datatype RetainedPrefix = RetainedPrefix(boundary: nat, rewriteHead: nat, pages: nat)

  datatype ChainStats = ChainStats(mutablePages: nat, indirectPages: nat, dead: nat, prefix: Option<RetainedPrefix>)

  /** A private copy of the owner page that was read last. */
  datatype Cache = NoCache | Cached(block: nat, page: Page)

  ghost predicate CacheOk(p: Pages, c: Cache) {
    c.Cached? ==> c.block < |p| && p[c.block] == c.page && c.page.Owners?
  }

  /** Applies one atomic batch of page images. */
  function Applied(p: Pages, images: seq<(nat, Page)>): (q: Pages)
    requires forall i | 0 <= i < |images| :: images[i].0 < |p|
    ensures |q| == |p|
  {
    if images == [] then p
    else Applied(p, images[..|images| - 1])[images[|images| - 1].0 := images[|images| - 1].1]
  }

  /** Advances along a posting chain; the captured relation size bounds every traversal. */
  function PostingNext(block: nat, page: Page, tail: nat, remaining: nat): Result<(Option<nat>, nat), Error>
    requires page.Posting?
  {
    if remaining == 0 then Err(InvalidState)
    else if block == tail then Ok((None, remaining - 1))
    else if page.next == NO_BLOCK || remaining == 1 then Err(InvalidState)
    else Ok((Some(page.next), remaining - 1))
  }

  /** Advances along an ascending dictionary chain. */
  function Following(block: nat, page: Page, tail: nat): Result<Option<nat>, Error>
    requires page.Dictionary?
  {
    if block == tail then Ok(None)
    else if page.next == NO_BLOCK || page.next > tail || page.next <= block then Err(InvalidState)
    else Ok(Some(page.next))
  }

  // ----- what a traversal finds -----

  ghost function CountMutable(p: Pages, bs: seq<nat>): nat
    requires forall i | 0 <= i < |bs| :: bs[i] < |p| && p[bs[i]].Posting?
  {
    if bs == [] then 0
    else CountMutable(p, bs[..|bs| - 1]) + if p[bs[|bs| - 1]].kind == Mutable then 1 else 0
  }

  ghost function CountIndirect(p: Pages, bs: seq<nat>): nat
    requires forall i | 0 <= i < |bs| :: bs[i] < |p| && p[bs[i]].Posting?
  {
    if bs == [] then 0
    else CountIndirect(p, bs[..|bs| - 1]) + if p[bs[|bs| - 1]].kind != Direct then 1 else 0
  }

  ghost predicate AllLive(p: Pages, refs: seq<OwnerRef>) {
    forall i | 0 <= i < |refs| :: Live(p, refs[i])
  }

  /** A sealed page none of whose owners has been removed. */
  ghost predicate LiveSealed(p: Pages, b: nat) {
    b < |p| && p[b].Posting? && p[b].kind == Sealed && AllLive(p, p[b].refs)
  }

  /** Exactly the first `m` pages are live and sealed; the last of them is left to be rewritten. */
  ghost predicate PrefixAt(p: Pages, bs: seq<nat>, m: nat, prefix: Option<RetainedPrefix>) {
    && m <= |bs|
    && (forall i | 0 <= i < m :: LiveSealed(p, bs[i]))
    && (m < |bs| ==> !LiveSealed(p, bs[m]))
    && prefix == if m < 2 then None else Some(RetainedPrefix(bs[m - 2], bs[m - 1], m - 1))
  }

  ghost predicate StatsCounts(p: Pages, bs: seq<nat>, liveness: bool, st: ChainStats)
    requires forall i | 0 <= i < |bs| :: bs[i] < |p| && p[bs[i]].Posting?
  {
    && st.mutablePages == CountMutable(p, bs)
    && st.indirectPages == CountIndirect(p, bs)
    && st.dead == if liveness then |AllRefs(p, bs)| - |LiveOnly(p, AllRefs(p, bs))| else 0
  }

  ghost predicate StatsOk(p: Pages, bs: seq<nat>, liveness: bool, st: ChainStats)
    requires forall i | 0 <= i < |bs| :: bs[i] < |p| && p[bs[i]].Posting?
  {
    && StatsCounts(p, bs, liveness, st)
    && (if liveness then exists m :: PrefixAt(p, bs, m, st.prefix) else st.prefix.None?)
  }

  function Start(previous: Option<OwnerRef>): seq<OwnerRef> {
    if previous.Some? then [previous.value] else []
  }

  function LastOf(refs: seq<OwnerRef>): Option<OwnerRef> {
    if refs == [] then None else Some(refs[|refs| - 1])
  }

  /** `refs` extends the ordered stream `seen`, and every reference names its owner. */
  ghost predicate Continues(p: Pages, seen: seq<OwnerRef>, refs: seq<OwnerRef>, liveness: bool) {
    && Sorted(seen + refs)
    && (liveness ==> forall i | 0 <= i < |refs| :: Resolves(p, refs[i]))
  }

  ghost predicate ResolveAll(p: Pages, bs: seq<nat>)
    requires forall i | 0 <= i < |bs| :: bs[i] < |p| && p[bs[i]].Posting?
  {
    forall i, k | 0 <= i < |bs| && 0 <= k < |p[bs[i]].refs| :: Resolves(p, p[bs[i]].refs[k])
  }

  ghost predicate RefsValid(p: Pages) {
    forall b, k | 0 <= b < |p| && p[b].Posting? && 0 <= k < |p[b].refs| :: ValidRef(p[b].refs[k])
  }

  /** What `inspect` accepts: a terminal chain of one term whose references are ordered. */
  ghost predicate Accepted(p: Pages, t: TermRef, head: nat, tail: nat, previous: Option<OwnerRef>, liveness: bool,
      bs: seq<nat>)
  {
    && PostChain(p, t, bs)
    && head == HeadOf(bs) && tail == TailOf(bs)
    && Sorted(Start(previous) + AllRefs(p, bs))
    && (liveness ==> ResolveAll(p, bs))
  }

  ghost predicate PostingsAt(p: Pages, bs: seq<nat>) {
    forall i | 0 <= i < |bs| :: bs[i] < |p| && p[bs[i]].Posting?
  }

  /** The running state of one inspection. */
  datatype Tally = Tally(stats: ChainStats, last: Option<OwnerRef>, prefixOpen: bool, prefixTail: Option<nat>,
      prefixPages: nat)

  ghost predicate TallyOk(p: Pages, first: seq<OwnerRef>, bs: seq<nat>, liveness: bool, y: Tally)
    requires PostingsAt(p, bs)
  {
    && Sorted(first + AllRefs(p, bs))
    && y.last == LastOf(first + AllRefs(p, bs))
    && (liveness ==> ResolveAll(p, bs))
    && StatsCounts(p, bs, liveness, y.stats)
    && (if liveness then
          && PrefixAt(p, bs, y.prefixPages, y.stats.prefix)
          && y.prefixTail == (if y.prefixPages == 0 then None else Some(bs[y.prefixPages - 1]))
          && y.prefixOpen == (y.prefixPages == |bs|)
        else y.stats.prefix.None? && !y.prefixOpen)
  }

  /** Adds one page; the last live sealed page stays in the suffix, to coalesce its tail. */
  function NextTally(y: Tally, block: nat, page: Page, last: Option<OwnerRef>, dead: nat): Tally
    requires page.Posting?
  {
    var stats := y.stats.(mutablePages := y.stats.mutablePages + (if page.kind == Mutable then 1 else 0),
                          indirectPages := y.stats.indirectPages + (if page.kind != Direct then 1 else 0),
                          dead := y.stats.dead + dead);
    if y.prefixOpen && page.kind == Sealed && dead == 0 then
      var prefix := if y.prefixTail.Some? then Some(RetainedPrefix(y.prefixTail.value, block, y.prefixPages)) else None;
      Tally(stats.(prefix := prefix), last, true, Some(block), y.prefixPages + 1)
    else Tally(stats, last, false, y.prefixTail, y.prefixPages)
  }

  // ----- lemmas about traversals -----

  lemma SortedSnoc(seen: seq<OwnerRef>, r: OwnerRef)
    requires Sorted(seen) && (seen != [] ==> Before(seen[|seen| - 1], r))
    ensures Sorted(seen + [r])
  {
    forall i, j | 0 <= i < j < |seen + [r]|
      ensures Before((seen + [r])[i], (seen + [r])[j])
    {
      if j == |seen| && i < |seen| - 1 {
        assert Before(seen[i], seen[|seen| - 1]);
      }
    }
  }

  lemma NotSorted(seen: seq<OwnerRef>, refs: seq<OwnerRef>, i: nat)
    requires i < |refs| && seen + refs[..i] != []
    requires !Before((seen + refs[..i])[|seen| + i - 1], refs[i])
    ensures !Sorted(seen + refs)
  {
    var all := seen + refs;
    assert all[|seen| + i] == refs[i];
    assert all[|seen| + i - 1] == (seen + refs[..i])[|seen| + i - 1];
  }

  lemma {:induction false} LiveOnlyFull(p: Pages, refs: seq<OwnerRef>)
    ensures |LiveOnly(p, refs)| <= |refs|
    ensures |LiveOnly(p, refs)| == |refs| <==> AllLive(p, refs)
    decreases |refs|
  {
    if refs != [] {
      LiveOnlyFull(p, refs[..|refs| - 1]);
    }
  }

  /** The pages visited so far: linked, of one term, and none of them the tail. */
  ghost predicate Walked(p: Pages, t: TermRef, tail: nat, bs: seq<nat>) {
    && (forall i | 0 <= i < |bs| :: PostingOf(p, t, bs[i]) && bs[i] != tail)
    && (forall i {:trigger NextIn(bs, i)} | 0 <= i < |bs| && i + 1 < |bs| :: p[bs[i]].next == NextIn(bs, i))
  }

  /** A walk that first meets the tail at its end never repeats a page. */
  lemma WalkEnds(p: Pages, t: TermRef, tail: nat, bs: seq<nat>)
    requires Walked(p, t, tail, bs) && PostingOf(p, t, tail) && p[tail].next == NO_BLOCK
    requires bs != [] ==> p[bs[|bs| - 1]].next == tail
    ensures PostChain(p, t, bs + [tail])
  {
    var cs := bs + [tail];
    forall i {:trigger NextIn(cs, i)} | 0 <= i < |cs|
      ensures p[cs[i]].next == NextIn(cs, i)
    {
      if i + 1 < |bs| {
        assert p[bs[i]].next == NextIn(bs, i);
      }
    }
    forall i, j | 0 <= i < j < |cs|
      ensures cs[i] != cs[j]
    {
      if cs[i] == cs[j] {
        Lockstep(p, cs, i, j);
      }
    }
  }

  lemma {:induction false} Lockstep(p: Pages, cs: seq<nat>, i: nat, j: nat)
    requires i < j < |cs| && cs[i] == cs[j]
    requires forall k | 0 <= k < |cs| :: cs[k] < |p| && p[cs[k]].Posting?
    requires forall k {:trigger NextIn(cs, k)} | 0 <= k < |cs| :: p[cs[k]].next == NextIn(cs, k)
    ensures exists k :: 0 <= k < |cs| - 1 && cs[k] == cs[|cs| - 1]
    decreases |cs| - j
  {
    if j < |cs| - 1 {
      assert NextIn(cs, i) == NextIn(cs, j);
      Lockstep(p, cs, i + 1, j + 1);
    }
  }

  /** A chain that would be accepted is exactly the one being walked. */
  lemma ExpectedStep(p: Pages, t: TermRef, head: nat, tail: nat, previous: Option<OwnerRef>, liveness: bool,
                     expected: seq<nat>, found: seq<nat>, block: nat)
    requires Accepted(p, t, head, tail, previous, liveness, expected)
    requires found < expected
    requires block == if found == [] then head else p[found[|found| - 1]].next
    ensures block == expected[|found|] && PostingOf(p, t, block)
    ensures Continues(p, Start(previous) + AllRefs(p, found), p[block].refs, liveness)
    ensures block == tail <==> |found| + 1 == |expected|
    ensures |found| + 1 == |expected| ==> p[block].next == NO_BLOCK
    ensures |found| + 1 < |expected| ==> p[block].next == expected[|found| + 1] < |p|
    ensures |expected| <= |p|
  {
    var k := |found|;
    if k > 0 {
      assert p[expected[k - 1]].next == NextIn(expected, k - 1);
      assert found[k - 1] == expected[k - 1];
    }
    assert p[expected[k]].next == NextIn(expected, k);
    AcceptedRefs(p, t, head, tail, previous, liveness, expected, found);
    DistinctFits(p, expected);
  }

  lemma AcceptedRefs(p: Pages, t: TermRef, head: nat, tail: nat, previous: Option<OwnerRef>, liveness: bool,
                     expected: seq<nat>, found: seq<nat>)
    requires Accepted(p, t, head, tail, previous, liveness, expected)
    requires found < expected
    ensures forall i | 0 <= i < |found| :: found[i] < |p| && p[found[i]].Posting?
    ensures Continues(p, Start(previous) + AllRefs(p, found), p[expected[|found|]].refs, liveness)
  {
    hide Sorted, Resolves, NoDuplicates;
    RefsUpTo(p, Start(previous), expected, |found|);
    assert expected[..|found|] == found;
  }

  lemma RefsUpTo(p: Pages, seen: seq<OwnerRef>, bs: seq<nat>, k: nat)
    requires forall i | 0 <= i < |bs| :: bs[i] < |p| && p[bs[i]].Posting?
    requires k < |bs| && Sorted(seen + AllRefs(p, bs))
    ensures Sorted(seen + AllRefs(p, bs[..k]) + p[bs[k]].refs)
  {
    hide Sorted, AllRefs;
    var upTo := bs[..k + 1];
    var rest := bs[k + 1..];
    assert bs == upTo + rest;
    AllRefsAppend(p, upTo, rest);
    AllRefsLast(p, bs, k);
    Regroup(seen, AllRefs(p, bs[..k]), p[bs[k]].refs, AllRefs(p, rest));
    SortedParts(seen + AllRefs(p, bs[..k]) + p[bs[k]].refs, AllRefs(p, rest));
  }

  lemma AllRefsLast(p: Pages, bs: seq<nat>, k: nat)
    requires forall i | 0 <= i < |bs| :: bs[i] < |p| && p[bs[i]].Posting?
    requires k < |bs|
    ensures AllRefs(p, bs[..k + 1]) == AllRefs(p, bs[..k]) + p[bs[k]].refs
  {
    assert bs[..k + 1][..k] == bs[..k];
  }

  lemma Regroup<T>(a: seq<T>, b: seq<T>, c: seq<T>, d: seq<T>)
    ensures a + (b + c + d) == (a + b + c) + d
  {
  }

  lemma DistinctFits(p: Pages, bs: seq<nat>)
    requires NoDuplicates(bs) && forall i | 0 <= i < |bs| :: bs[i] < |p|
    ensures |bs| <= |p|
  {
    NoDuplicatesSize(bs);
    assert ToSet(bs) <= Below(|p|);
    SubsetSize(ToSet(bs), Below(|p|));
  }

  /** The statistics and the stream after one more page. */
  lemma StatsStep(p: Pages, found: seq<nat>, block: nat, liveness: bool, st: ChainStats, st': ChainStats, dead: nat,
      first: seq<OwnerRef>)
    requires forall i | 0 <= i < |found| :: found[i] < |p| && p[found[i]].Posting?
    requires block < |p| && p[block].Posting?
    requires StatsCounts(p, found, liveness, st)
    requires dead == if liveness then |p[block].refs| - |LiveOnly(p, p[block].refs)| else 0
    requires st'.mutablePages == st.mutablePages + if p[block].kind == Mutable then 1 else 0
    requires st'.indirectPages == st.indirectPages + if p[block].kind != Direct then 1 else 0
    requires st'.dead == st.dead + dead
    ensures StatsCounts(p, found + [block], liveness, st')
    ensures first + AllRefs(p, found + [block]) == first + AllRefs(p, found) + p[block].refs
    ensures liveness ==> (AllLive(p, p[block].refs) <==> dead == 0)
  {
    var cs := found + [block];
    assert cs[..|cs| - 1] == found;
    LiveOnlyAppend(p, AllRefs(p, found), p[block].refs);
    LiveOnlyFull(p, p[block].refs);
  }

  lemma TallyStep(p: Pages, first: seq<OwnerRef>, found: seq<nat>, block: nat, liveness: bool, y: Tally,
      last: Option<OwnerRef>, dead: nat)
    requires PostingsAt(p, found) && TallyOk(p, first, found, liveness, y)
    requires block < |p| && p[block].Posting?
    requires Continues(p, first + AllRefs(p, found), p[block].refs, liveness)
    requires last == LastOf(first + AllRefs(p, found) + p[block].refs)
    requires dead == if liveness then |p[block].refs| - |LiveOnly(p, p[block].refs)| else 0
    ensures TallyOk(p, first, found + [block], liveness, NextTally(y, block, p[block], last, dead))
  {
    hide Sorted, AllLive, ResolveAll, Resolves, LiveSealed, PrefixAt, LiveOnly, StatsCounts, AllRefs;
    var y' := NextTally(y, block, p[block], last, dead);
    StatsStep(p, found, block, liveness, y.stats, y'.stats, dead, first);
    if liveness {
      MoreResolve(p, found, block);
      LiveSealedIff(p, block, dead);
      PrefixStep(p, found, block, y.prefixPages, y.stats.prefix);
    }
  }

  lemma LiveSealedIff(p: Pages, block: nat, dead: nat)
    requires block < |p| && p[block].Posting?
    requires AllLive(p, p[block].refs) <==> dead == 0
    ensures LiveSealed(p, block) <==> p[block].kind == Sealed && dead == 0
  {
  }

  lemma PrefixStep(p: Pages, found: seq<nat>, block: nat, m: nat, prefix: Option<RetainedPrefix>)
    requires PrefixAt(p, found, m, prefix)
    ensures m < |found| ==> PrefixAt(p, found + [block], m, prefix) && found[m] == (found + [block])[m]
    ensures m == |found| && !LiveSealed(p, block) ==> PrefixAt(p, found + [block], m, prefix)
    ensures m == |found| && LiveSealed(p, block) ==>
              PrefixAt(p, found + [block], m + 1, if m == 0 then None else Some(RetainedPrefix(found[m - 1], block, m)))
    ensures m <= |found|
  {
    hide LiveSealed;
    assert forall i | 0 <= i < |found| :: (found + [block])[i] == found[i];
  }

  lemma StartOk(p: Pages, t: TermRef, previous: Option<OwnerRef>, liveness: bool)
    ensures Accepted(p, t, NO_BLOCK, NO_BLOCK, previous, liveness, [])
    ensures TallyOk(p, Start(previous), [], liveness, Tally(ChainStats(0, 0, 0, None), previous, liveness, None, 0))
  {
  }

  lemma ExpectedNonempty(p: Pages, t: TermRef, head: nat, tail: nat, previous: Option<OwnerRef>, liveness: bool,
      bs: seq<nat>)
    requires |p| <= NO_BLOCK && Accepted(p, t, head, tail, previous, liveness, bs)
    ensures head == NO_BLOCK ==> tail == NO_BLOCK
    ensures head != NO_BLOCK ==> bs != []
  {
    if bs != [] {
      assert PostingOf(p, t, bs[0]);
    }
  }

  lemma ValidOn(p: Pages, b: nat)
    requires RefsValid(p) && b < |p| && p[b].Posting?
    ensures forall i | 0 <= i < |p[b].refs| :: ValidRef(p[b].refs[i])
  {
  }

  lemma MoreResolve(p: Pages, found: seq<nat>, block: nat)
    requires forall i | 0 <= i < |found| :: found[i] < |p| && p[found[i]].Posting?
    requires block < |p| && p[block].Posting? && ResolveAll(p, found)
    requires forall i | 0 <= i < |p[block].refs| :: Resolves(p, p[block].refs[i])
    ensures ResolveAll(p, found + [block])
  {
  }

  lemma MoreWalked(p: Pages, t: TermRef, tail: nat, found: seq<nat>, block: nat)
    requires Walked(p, t, tail, found) && PostingOf(p, t, block) && block != tail
    requires found != [] ==> block == p[found[|found| - 1]].next
    ensures Walked(p, t, tail, found + [block])
  {
    var cs := found + [block];
    forall i {:trigger NextIn(cs, i)} | 0 <= i < |cs| && i + 1 < |cs|
      ensures p[cs[i]].next == NextIn(cs, i)
    {
      if i + 1 < |found| {
        assert p[found[i]].next == NextIn(found, i);
      }
    }
  }

  lemma WalkAccepted(p: Pages, t: TermRef, head: nat, tail: nat, previous: Option<OwnerRef>, liveness: bool,
      found: seq<nat>, tally: Tally)
    requires Walked(p, t, tail, found) && PostingOf(p, t, tail) && p[tail].next == NO_BLOCK
    requires if found == [] then tail == head else found[0] == head && p[found[|found| - 1]].next == tail
    requires TallyOk(p, Start(previous), found + [tail], liveness, tally)
    ensures Accepted(p, t, head, tail, previous, liveness, found + [tail])
    ensures StatsOk(p, found + [tail], liveness, tally.stats)
  {
    WalkEnds(p, t, tail, found);
  }

  // ----- recovery -----

  /** Owners, dictionaries and every active chain are as they were. */
  ghost predicate Undisturbed(p: Pages, q: Pages, active: map<TermRef, seq<nat>>) {
    OwnersKept(p, q) && DictionariesKept(p, q) && ChainsKept(p, q, active)
  }

  lemma UndisturbedSelf(p: Pages, s: Shape)
    requires Good(p, s)
    ensures Undisturbed(p, p, s.active)
  {
    ActiveBlocks(p, s);
  }

  lemma UndisturbedStep(p: Pages, q: Pages, r: Pages, s: Shape)
    requires Undisturbed(p, q, s.active) && Undisturbed(q, r, s.active)
    ensures Undisturbed(p, r, s.active)
  {
  }

  function Reverse(bs: seq<nat>): seq<nat> {
    if bs == [] then [] else Reverse(bs[1..]) + [bs[0]]
  }

  /** The free list that draining the rest of the journal leads to. */
  ghost function Drained(s: Shape): seq<nat> {
    Reverse(s.journal) + s.free
  }

  lemma ReclaimedParts(s: Shape)
    requires s.journal != []
    ensures Drained(ReclaimedShape(s)) == Drained(s)
    ensures ReclaimedShape(s).active == s.active && ReclaimedShape(s).buckets == s.buckets
    ensures ReclaimedShape(s).journal == s.journal[1..]
  {
    assert Reverse(s.journal[1..]) + ([s.journal[0]] + s.free) == (Reverse(s.journal[1..]) + [s.journal[0]]) + s.free;
  }

  /** The checks recovery makes before it trusts the journal all pass. */
  lemma JournalFacts(p: Pages, s: Shape)
    requires Good(p, s) && s.journal != []
    ensures s.journal[0] < |p| && p[s.journal[0]].Posting?
    ensures var t := p[s.journal[0]].term;
            && t in s.active && IsTerm(p, t)
            && EntryOf(p, t).tail == TailOf(s.active[t]) != TailOf(s.journal)
            && Accepted(p, t, p[0].journal.head, p[0].journal.tail, None, false, s.journal)
            && Accepted(p, t, EntryOf(p, t).head, EntryOf(p, t).tail, Some(EntryOf(p, t).first), false, s.active[t])
    ensures RefsValid(p)
  {
    hide BucketsOk, FreeOk, PagesOk;
    GoodRefsValid(p, s);
    hide PostingsOk, Sorted;
    var t := p[s.journal[0]].term;
    assert TermOk(p, t, s.active[t]);
    JournalLinks(p, t, s.journal);
    assert TailOf(s.journal) in s.journal;
    assert s.active[t] != [] ==> TailOf(s.active[t]) in s.active[t];
    assert Start(None) + AllRefs(p, s.journal) == AllRefs(p, s.journal);
  }

  /** The first two pages of the journal and what they link to. */
  lemma JournalEnds(p: Pages, s: Shape)
    requires Good(p, s) && s.journal != []
    ensures 0 < |s.journal| < |p| <= NO_BLOCK && p[0].Meta? && p[0].journal.Journal?
    ensures p[0].journal.head == s.journal[0] && p[0].journal.tail == TailOf(s.journal)
    ensures 0 < s.journal[0] < |p| && p[s.journal[0]].Posting? && PageOk(s.journal[0], p[s.journal[0]])
    ensures p[s.journal[0]].next == if |s.journal| == 1 then NO_BLOCK else s.journal[1]
    ensures |s.journal| > 1 ==>
              && PostingOf(p, p[s.journal[0]].term, s.journal[1]) && PageOk(s.journal[1], p[s.journal[1]])
              && 0 < s.journal[1] && s.journal[0] != s.journal[1]
              && s.journal[0] != TailOf(s.journal)
              && p[s.journal[1]].next == if |s.journal| == 2 then NO_BLOCK else s.journal[2]
    ensures |s.journal| > 2 ==>
              && s.journal[1] != TailOf(s.journal)
              && PostingOf(p, p[s.journal[0]].term, s.journal[2])
  {
    hide BucketsOk, FreeOk, PostingsOk, TermsOk, PageOk;
    var t := p[s.journal[0]].term;
    ChainIsShort(p, t, s.journal);
    hide Sorted;
    JournalLinks(p, t, s.journal);
    assert |s.journal| > 1 ==> p[s.journal[1]].next == NextIn(s.journal, 1);
  }

  lemma GoodRefsValid(p: Pages, s: Shape)
    requires PostingsOk(p, s)
    ensures RefsValid(p)
  {
    forall b, k | 0 <= b < |p| && p[b].Posting? && 0 <= k < |p[b].refs|
      ensures ValidRef(p[b].refs[k])
    {
      assert PostingOk(p, s, b);
    }
  }

  ghost predicate Fits(p: Pages, images: seq<(nat, Page)>) {
    && |images| <= 3
    && (forall i | 0 <= i < |images| :: images[i].0 < |p|)
    && (forall i, j | 0 <= i < j < |images| :: images[i].0 != images[j].0)
  }

  /** A legal batch that leads to a good state and disturbs no active chain. */
  ghost predicate Drains(p: Pages, s: Shape, images: seq<(nat, Page)>, s': Shape) {
    && Fits(p, images)
    && Good(Applied(p, images), s')
    && Undisturbed(p, Applied(p, images), s.active)
  }

  /** The image of the metapage once `count` journal pages were reclaimed. */
  ghost predicate MetaDrained(p: Pages, s: Shape, count: nat, meta: Page) {
    && 0 < count <= |s.journal| && 0 < |p| && p[0].Meta? && p[0].journal.Journal?
    && meta == p[0].(journal := if |s.journal| == count then NoJournal else p[0].journal.(head := s.journal[count]),
                     free := s.journal[count - 1])
  }

  ghost predicate OneReclaimed(p: Pages, s: Shape, images: seq<(nat, Page)>) {
    && |images| == 2 && MetaDrained(p, s, 1, images[0].1)
    && images == [(0, images[0].1), (s.journal[0], Free(p[0].free))]
  }

  ghost predicate TwoReclaimed(p: Pages, s: Shape, images: seq<(nat, Page)>) {
    && |images| == 3 && MetaDrained(p, s, 2, images[0].1)
    && images == [(0, images[0].1), (s.journal[0], Free(p[0].free)), (s.journal[1], Free(s.journal[0]))]
  }

  /** The commit that reclaims the last journal page. */
  lemma ReclaimLast(p: Pages, s: Shape, images: seq<(nat, Page)>)
    requires |s.journal| == 1 && OneReclaimed(p, s, images)
    requires Good(p, s)
    ensures Drains(p, s, images, ReclaimedShape(s))
  {
    hide Good, PageOk, OwnersKept, DictionariesKept, ChainsKept;
    JournalEnds(p, s);
    ReclaimKeepsGood(p, s);
    AppliedPair(p, images);
    assert Applied(p, images) == Reclaimed(p);
  }

  lemma NoJournalFacts(p: Pages, s: Shape)
    requires Good(p, s)
    ensures p[0].Meta? && (p[0].journal.NoJournal? <==> s.journal == [])
    ensures PagesOk(p)
  {
  }

  lemma MetaFirst(p: Pages, s: Shape)
    requires Good(p, s)
    ensures 0 < |p| <= NO_BLOCK && p[0].Meta?
  {
  }

  lemma AppliedPair(p: Pages, images: seq<(nat, Page)>)
    requires |images| == 2 && forall i | 0 <= i < |images| :: images[i].0 < |p|
    ensures Applied(p, images) == p[images[0].0 := images[0].1][images[1].0 := images[1].1]
  {
    assert images[..1][..0] == [];
    assert Applied(p, images[..1]) == p[images[0].0 := images[0].1];
  }

  lemma AppliedTriple(p: Pages, images: seq<(nat, Page)>)
    requires |images| == 3 && forall i | 0 <= i < |images| :: images[i].0 < |p|
    ensures Applied(p, images) == p[images[0].0 := images[0].1][images[1].0 := images[1].1][images[2].0 := images[2].1]
  {
    AppliedPair(p, images[..2]);
  }

  /** The commit that reclaims the first two journal pages at once. */
  lemma ReclaimPair(p: Pages, s: Shape, images: seq<(nat, Page)>)
    requires |s.journal| >= 2 && TwoReclaimed(p, s, images)
    requires Good(p, s)
    ensures Drains(p, s, images, ReclaimedShape(ReclaimedShape(s)))
  {
    hide Good, PageOk, OwnersKept, DictionariesKept, ChainsKept;
    JournalEnds(p, s);
    ReclaimKeepsGood(p, s);
    TwoReclaims(p, s.journal[0], s.journal[1]);
    hide Reclaimed;
    ReclaimKeepsGood(Reclaimed(p), ReclaimedShape(s));
    UndisturbedStep(p, Reclaimed(p), Reclaimed(Reclaimed(p)), s);
    AppliedTriple(p, images);
  }

  lemma TwoReclaims(p: Pages, b: nat, c: nat)
    requires 0 < b < |p| && 0 < c < |p| && b != c && p[0].Meta? && p[0].journal.Journal?
    requires p[0].journal.head == b && b != p[0].journal.tail
    requires p[b].Posting? && p[b].next == c && p[c].Posting?
    ensures var rest := if c == p[0].journal.tail then NoJournal else p[0].journal.(head := p[c].next);
            Reclaimed(Reclaimed(p)) == p[0 := p[0].(journal := rest, free := c)][b := Free(p[0].free)][c := Free(b)]
  {
  }

  /** After two reclaims the metapage holds its image and the next journal page is a posting. */
  lemma FirstImage(p: Pages, s: Shape, images: seq<(nat, Page)>)
    requires |s.journal| >= 2 && TwoReclaimed(p, s, images) && Fits(p, images)
    requires Good(p, s)
    ensures |Applied(p, images)| == |p| && Applied(p, images)[0] == images[0].1
    ensures |s.journal| > 2 ==> PostingOf(Applied(p, images), p[s.journal[0]].term, s.journal[2])
  {
    hide Good, PageOk;
    JournalEnds(p, s);
    AppliedTriple(p, images);
    if |s.journal| > 2 {
      JournalApart(p, s);
    }
  }

  lemma JournalApart(p: Pages, s: Shape)
    requires |s.journal| > 2
    requires Good(p, s)
    ensures s.journal[2] != s.journal[0] && s.journal[2] != s.journal[1]
  {
    hide BucketsOk, FreeOk, PostingsOk, TermsOk, PagesOk, Sorted;
  }

  // ----- output pages -----

  const CAPACITY: nat := 8168
  const POSTING_HEADER: nat := 24
  const DIRECT_HEADER: nat := 56

  /** The encoded size of a reference after the previous one of its page. */
  function DeltaLen(r: OwnerRef, previous: Option<OwnerRef>): nat
    requires previous.Some? ==> Before(previous.value, r)
  {
    if previous.None? then Varints.VarLength(r.page) + Varints.VarLength(r.slot) + Varints.VarLength(r.incarnation)
    else
      var q := previous.value;
      Varints.VarLength(r.page - q.page)
      + Varints.VarLength(if r.page == q.page then r.slot - q.slot else r.slot)
      + Varints.VarLength(r.incarnation - q.incarnation)
  }

  /** One compressed page under construction, and the bytes it would occupy. */
  datatype Builder = Builder(block: nat, term: TermRef, direct: bool, refs: seq<OwnerRef>, roots: seq<nat>, length: nat)

  function NewBuilder(block: nat, term: TermRef, direct: bool): Builder {
    Builder(block, term, direct, [], [], if direct then DIRECT_HEADER else POSTING_HEADER)
  }

  /** Appends a reference, or refuses without change when the page has no room. */
  function Push(b: Builder, r: OwnerRef, root: nat): Result<Option<Builder>, Error> {
    var previous := LastOf(b.refs);
    if !ValidRef(r) || (previous.Some? && !Before(previous.value, r)) then Err(InvalidState)
    else
      var length := b.length + DeltaLen(r, previous) + if b.direct then 8 else 0;
      if length > CAPACITY then Ok(None)
      else Ok(Some(b.(refs := b.refs + [r], roots := if b.direct then b.roots + [root] else b.roots, length := length)))
  }

  function Finish(b: Builder): Result<Page, Error> {
    if b.refs == [] then Err(InvalidState)
    else Ok(Posting(if b.direct then Direct else Sealed, b.term, b.refs, b.roots, NO_BLOCK))
  }

  /** An empty page has room for any reference. */
  lemma FirstPushFits(block: nat, t: TermRef, direct: bool, r: OwnerRef, root: nat)
    requires ValidRef(r)
    ensures Push(NewBuilder(block, t, direct), r, root).Ok?
    ensures Push(NewBuilder(block, t, direct), r, root).value.Some?
  {
    hide Varints.VarLength;
    Varints.FiveAndTen();
    Varints.LengthAtMost(r.page, 5);
    Varints.LengthAtMost(r.slot, 5);
    Varints.LengthAtMost(r.incarnation, 10);
  }

  /** The private state of a rewrite: a metapage image and the page being filled. */
  datatype Draft = Draft(meta: Page, output: Option<Builder>, written: nat, reused: nat)

  /** Every journal page is an output page of `t`. */
  ghost predicate OutputPages(p: Pages, journal: seq<nat>, t: TermRef, direct: bool) {
    forall i | 0 <= i < |journal| ::
      PostingOf(p, t, journal[i]) && p[journal[i]].kind == if direct then Direct else Sealed
  }

  ghost predicate BuilderOk(p: Pages, s: Shape, t: TermRef, direct: bool, b: Builder) {
    && Reserved(p, s, b.block)
    && b.term == t && b.direct == direct
    && b.refs != []
    && (forall i | 0 <= i < |b.refs| :: Resolves(p, b.refs[i]))
    && (if direct then |b.roots| == |b.refs| && forall i | 0 <= i < |b.refs| :: b.roots[i] == RootOf(p, b.refs[i])
        else b.roots == [])
  }

  /** The stored output and the page being filled hold exactly `emitted`. */
  ghost predicate DraftOk(p: Pages, s: Shape, t: TermRef, direct: bool, emitted: seq<OwnerRef>, d: Draft) {
    && 0 < |p| && p[0].Meta?
    && (p[0].journal.Journal? ==> p[0].journal.phase == Building)
    && OutputPages(p, s.journal, t, direct)
    && d.written == |s.journal|
    && match d.output
       case None => d.meta == p[0] && emitted == AllRefsOf(p, s.journal)
       case Some(b) =>
         && BuilderOk(p, s, t, direct, b)
         && d.meta == p[0].(free := FreeAfter(p, b.block))
         && emitted == AllRefsOf(p, s.journal) + b.refs
  }

  /** A legal batch that adds one output page to the journal. */
  ghost predicate Stores(p: Pages, s: Shape, t: TermRef, direct: bool, images: seq<(nat, Page)>, b: Builder,
      s': Shape)
  {
    && Fits(p, images)
    && (var q := Applied(p, images);
        && Good(q, s')
        && Undisturbed(p, q, s.active)
        && s'.active == s.active && s'.buckets == s.buckets
        && s'.journal == s.journal + [b.block]
        && OutputPages(q, s'.journal, t, direct)
        && AllRefsOf(q, s'.journal) == AllRefsOf(p, s.journal) + b.refs
        && 0 < |q| == |p| && q[0].Meta? && q[0].journal.Journal? && q[0].journal.phase == Building)
  }

  /** The images `persist_output` commits: metapage, linked predecessor if any, output page. */
  ghost predicate OutputImages(p: Pages, s: Shape, b: Builder, meta: Page, images: seq<(nat, Page)>) {
    && TailReady(p, s) && 0 < b.block < |p| && Finish(b).Ok?
    && (p[0].journal.Journal? ==> p[0].journal.phase == Building)
    && (if s.journal == [] then
          && meta == p[0].(free := FreeAfter(p, b.block), journal := Journal(b.block, b.block, Building))
          && images == [(0, meta), (b.block, Finish(b).value)]
        else
          && meta == p[0].(free := FreeAfter(p, b.block), journal := p[0].journal.(tail := b.block))
          && images == [(0, meta), (TailOf(s.journal), Relinked(p[TailOf(s.journal)], b.block)),
               (b.block, Finish(b).value)])
  }

  lemma StoreBatch(p: Pages, s: Shape, t: TermRef, direct: bool, emitted: seq<OwnerRef>, d: Draft, meta: Page,
      images: seq<(nat, Page)>)
    requires d.output.Some? && DraftOk(p, s, t, direct, emitted, d) && Sorted(emitted)
    requires OutputImages(p, s, d.output.value, meta, images)
    requires t in s.active
    requires Good(p, s)
    ensures (p[d.output.value.block].Free? ==> s.free != [])
    ensures Stores(p, s, t, direct, images, d.output.value, StoredShape(p, s, d.output.value.block))
    ensures Applied(p, images)[0] == meta
    ensures TailReady(p, s) && Finish(d.output.value).Ok?
    ensures Storable(p, s, d.output.value.block, Finish(d.output.value).value)
    ensures Applied(p, images) == Stored(p, d.output.value.block, Finish(d.output.value).value)
  {
    hide Good, Sorted, OwnersKept, DictionariesKept, ChainsKept, BuilderOk, PageOk, AllRefsOf;
    var b := d.output.value;
    var page := Finish(b).value;
    MetaFirst(p, s);
    BuilderStorable(p, s, t, direct, emitted, b);
    ReservedApart(p, s, b.block);
    StoreKeepsGood(p, s, b.block, page);
    hide Storable;
    if s.journal == [] {
      AppliedPair(p, images);
    } else {
      AppliedTriple(p, images);
    }
    assert Applied(p, images) == Stored(p, b.block, page);
    StoredOutputs(p, s, t, direct, b);
  }

  lemma StoredOutputs(p: Pages, s: Shape, t: TermRef, direct: bool, b: Builder)
    requires TailReady(p, s) && OutputPages(p, s.journal, t, direct)
    requires BuilderOk(p, s, t, direct, b) && Finish(b).Ok?
    ensures OutputPages(Stored(p, b.block, Finish(b).value), s.journal + [b.block], t, direct)
  {
    hide Resolves;
    assert forall i | 0 <= i < |s.journal| :: s.journal[i] != b.block;
  }

  lemma ReservedApart(p: Pages, s: Shape, b: nat)
    requires Reserved(p, s, b)
    requires Good(p, s)
    ensures s.journal != [] ==> TailOf(s.journal) != b
  {
    hide BucketsOk, FreeOk, PostingsOk, TermsOk, PagesOk, Sorted;
    if s.journal != [] {
      JournalLinks(p, p[s.journal[0]].term, s.journal);
    }
  }

  lemma BuilderStorable(p: Pages, s: Shape, t: TermRef, direct: bool, emitted: seq<OwnerRef>, b: Builder)
    requires BuilderOk(p, s, t, direct, b) && OutputPages(p, s.journal, t, direct)
    requires emitted == AllRefsOf(p, s.journal) + b.refs && Sorted(emitted)
    requires |p| <= NO_BLOCK
    requires t in s.active
    ensures Finish(b).Ok? && Storable(p, s, b.block, Finish(b).value)
  {
    SortedParts(AllRefsOf(p, s.journal), b.refs);
  }

  // ----- publication -----

  /** No mutable page, no removed owner, and in direct mode only direct pages. */
  ghost predicate Clean(p: Pages, bs: seq<nat>, direct: bool) {
    forall i | 0 <= i < |bs| ::
      && bs[i] < |p| && p[bs[i]].Posting?
      && p[bs[i]].kind != Mutable
      && (direct ==> p[bs[i]].kind == Direct)
      && AllLive(p, p[bs[i]].refs)
  }

  /** Nothing a reader can reach has changed. */
  ghost predicate Retained(p: Pages, s: Shape, q: Pages, s': Shape) {
    Undisturbed(p, q, s.active) && s'.active == s.active && s'.buckets == s.buckets
  }

  /** One term's chain now holds exactly its live references; all other terms are untouched. */
  ghost predicate Replaced(p: Pages, s: Shape, q: Pages, s': Shape, t: TermRef, direct: bool) {
    && OwnersKept(p, q) && OneEntryMoved(p, q, t) && ChainsKept(p, q, s.active - {t})
    && s'.buckets == s.buckets
    && t in s.active && t in s'.active && s'.active == s.active[t := s'.active[t]]
    && AllRefsOf(q, s'.active[t]) == LiveOnly(p, AllRefsOf(p, s.active[t]))
    && Clean(q, s'.active[t], direct)
  }

  /** The images of the publishing batch. */
  ghost predicate PublishImages(p: Pages, s: Shape, t: TermRef, k: nat, images: seq<(nat, Page)>) {
    && 0 < |p| && p[0].Meta? && IsTerm(p, t) && t in s.active && k < |s.active[t]|
    && (var bs := s.active[t];
        var chain := Spliced(bs, k, s.journal);
        var meta := (0, p[0].(journal := Journal(bs[k], TailOf(bs), Retiring)));
        var dictionary := (t.page, WithChain(p[t.page], t.index, HeadOf(chain), TailOf(chain)));
        if k == 0 then images == [meta, dictionary]
        else
          && bs[k - 1] < |p| && p[bs[k - 1]].Posting?
          && images == [meta, dictionary, (bs[k - 1], Relinked(p[bs[k - 1]], HeadOf(s.journal)))])
  }

  ghost predicate KindsKept(p: Pages, q: Pages) {
    |p| <= |q| && forall b | 0 <= b < |p| && p[b].Posting? :: q[b].Posting? && q[b].kind == p[b].kind
  }

  ghost predicate Publishes(p: Pages, s: Shape, t: TermRef, k: nat, images: seq<(nat, Page)>) {
    && Fits(p, images) && t in s.active && k <= |s.active[t]|
    && (var q := Applied(p, images);
        && Good(q, PublishedShape(s, t, k))
        && OwnersKept(p, q) && OneEntryMoved(p, q, t) && ChainsKept(p, q, s.active - {t}) && KindsKept(p, q)
        && AllRefsOf(q, Spliced(s.active[t], k, s.journal)) == AllRefsOf(p, s.active[t][..k]) + AllRefsOf(p, s.journal))
  }

  lemma PublishBatch(p: Pages, s: Shape, t: TermRef, k: nat, images: seq<(nat, Page)>)
    requires PublishImages(p, s, t, k, images) && Publishable(p, s, t, k)
    requires Good(p, s)
    ensures Publishes(p, s, t, k, images)
  {
    hide Good, OwnersKept, OneEntryMoved, ChainsKept, KindsKept, Publishable, PublishImages, AllRefsOf, TermOk;
    MetaFirst(p, s);
    PublishedIs(p, s, t, k, images);
    PublishKeepsGood(p, s, t, k);
  }

  lemma PublishedIs(p: Pages, s: Shape, t: TermRef, k: nat, images: seq<(nat, Page)>)
    requires 0 < |p| <= NO_BLOCK && p[0].Meta?
    requires PublishImages(p, s, t, k, images) && Publishable(p, s, t, k)
    ensures t in s.active && k < |s.active[t]| && TermOk(p, t, s.active[t])
    ensures Fits(p, images)
    ensures Applied(p, images) == PublishedPages(p, s, t, k)
    ensures KindsKept(p, Applied(p, images))
  {
    hide Sorted, PostChain, AllRefs, AllRefsOf, Applied, KindsKept, Spliced, WithChain;
    JournalLinks(p, t, s.active[t]);
    if k == 0 {
      AppliedPair(p, images);
    } else {
      AppliedTriple(p, images);
    }
    PublishedKinds(p, s, t, k);
  }

  lemma PublishedKinds(p: Pages, s: Shape, t: TermRef, k: nat)
    requires 0 < |p| <= NO_BLOCK && p[0].Meta? && Publishable(p, s, t, k)
    ensures KindsKept(p, PublishedPages(p, s, t, k))
  {
    hide Sorted, PostChain, AllRefs, AllRefsOf, Spliced;
    JournalLinks(p, t, s.active[t]);
  }

  /** What a finished rewrite holds before it is published. */
  ghost predicate Rewritten(p0: Pages, s0: Shape, p: Pages, s: Shape, t: TermRef, k: nat, direct: bool) {
    && Retained(p0, s0, p, s)
    && t in s0.active && k < |s0.active[t]|
    && (direct ==> k == 0)
    && (forall i | 0 <= i < k :: LiveSealed(p0, s0.active[t][i]))
    && OutputPages(p, s.journal, t, direct)
    && AllRefsOf(p, s.journal) == LiveOnly(p0, AllRefsOf(p0, s0.active[t][k..]))
  }

  lemma RewrittenPublishable(p0: Pages, s0: Shape, p: Pages, s: Shape, t: TermRef, k: nat, direct: bool)
    requires Rewritten(p0, s0, p, s, t, k, direct)
    requires TermOk(p0, t, s0.active[t]) && TermOk(p, t, s.active[t])
    ensures Publishable(p, s, t, k)
    ensures AllRefsOf(p, s.active[t][..k]) + AllRefsOf(p, s.journal) == LiveOnly(p0, AllRefsOf(p0, s0.active[t]))
  {
    hide Sorted, OwnersKept, PostChain, AllRefs, AllLive, LiveOnly, LiveSealed, ChainsKept;
    var bs := s0.active[t];
    var first := EntryOf(p0, t).first;
    PostingsIn(p0, t, bs);
    KeptPrefix(p0, p, s0.active, t, k);
    assert bs == bs[..k] + bs[k..];
    SplitLive(p0, bs[..k], bs[k..]);
    SortedLive(p0, first, AllRefs(p0, bs));
    assert [first] + AllRefsOf(p, bs[..k]) + AllRefsOf(p, s.journal)
        == [first] + (AllRefsOf(p, bs[..k]) + AllRefsOf(p, s.journal));
  }

  lemma KeptPrefix(p0: Pages, p: Pages, active: map<TermRef, seq<nat>>, t: TermRef, k: nat)
    requires ChainsKept(p0, p, active) && t in active && k <= |active[t]|
    requires forall i | 0 <= i < |active[t]| :: active[t][i] < |p0| && p0[active[t][i]].Posting?
    ensures AllRefsOf(p, active[t][..k]) == AllRefsOf(p0, active[t][..k])
  {
    var kept := active[t][..k];
    assert forall i | 0 <= i < k :: kept[i] == active[t][i];
    AllRefsFrame(p0, p, kept);
  }

  lemma SplitLive(p: Pages, kept: seq<nat>, rest: seq<nat>)
    requires forall i | 0 <= i < |kept| :: LiveSealed(p, kept[i])
    requires forall i | 0 <= i < |rest| :: rest[i] < |p| && p[rest[i]].Posting?
    ensures AllRefsOf(p, kept) + LiveOnly(p, AllRefsOf(p, rest)) == LiveOnly(p, AllRefsOf(p, kept + rest))
  {
    hide LiveOnly, AllLive, AllRefs;
    AllRefsAppend(p, kept, rest);
    LiveOnlyAppend(p, AllRefs(p, kept), AllRefs(p, rest));
    PrefixLive(p, kept);
  }

  lemma PostingsIn(p: Pages, t: TermRef, bs: seq<nat>)
    requires PostChain(p, t, bs)
    ensures forall i | 0 <= i < |bs| :: bs[i] < |p| && p[bs[i]].Posting? && p[bs[i]].term == t
  {
  }

  lemma SortedLive(p: Pages, first: OwnerRef, refs: seq<OwnerRef>)
    requires Sorted([first] + refs)
    ensures Sorted([first] + LiveOnly(p, refs))
  {
    SortedParts([first], refs);
    LiveOnlyMembers(p, refs);
    var kept := LiveOnly(p, refs);
    forall i, j | 0 <= i < j < |[first] + kept|
      ensures Before(([first] + kept)[i], ([first] + kept)[j])
    {
      if i == 0 {
        assert kept[j - 1] in kept;
        var n :| 0 <= n < |refs| && refs[n] == kept[j - 1];
        assert Before(([first] + refs)[0], ([first] + refs)[n + 1]);
      } else {
        assert Before(kept[i - 1], kept[j - 1]);
      }
    }
  }

  lemma {:induction false} PrefixLive(p: Pages, bs: seq<nat>)
    requires forall i | 0 <= i < |bs| :: bs[i] < |p| && p[bs[i]].Posting? && AllLive(p, p[bs[i]].refs)
    ensures LiveOnly(p, AllRefs(p, bs)) == AllRefs(p, bs)
    decreases |bs|
  {
    if bs != [] {
      PrefixLive(p, bs[..|bs| - 1]);
      LiveOnlyAppend(p, AllRefs(p, bs[..|bs| - 1]), p[bs[|bs| - 1]].refs);
      LiveOnlyAll(p, p[bs[|bs| - 1]].refs);
    }
  }

  /** Publishing a finished rewrite replaces the chain by its live references. */
  lemma PublishReplaces(p0: Pages, s0: Shape, p: Pages, s: Shape, t: TermRef, k: nat, direct: bool,
      images: seq<(nat, Page)>)
    requires Rewritten(p0, s0, p, s, t, k, direct)
    requires Publishes(p, s, t, k, images)
    requires AllRefsOf(p, s.active[t][..k]) + AllRefsOf(p, s.journal) == LiveOnly(p0, AllRefsOf(p0, s0.active[t]))
    ensures Replaced(p0, s0, Applied(p, images), PublishedShape(s, t, k), t, direct)
  {
    hide Good, Sorted, Applied, LiveOnly, AllRefs;
    var q := Applied(p, images);
    var chain := Spliced(s.active[t], k, s.journal);
    FrameMoved(p0, p, q, t, s0.active);
    CleanChain(p0, s0, p, s, q, t, k, direct);
  }

  lemma FrameMoved(p0: Pages, p: Pages, q: Pages, t: TermRef, active: map<TermRef, seq<nat>>)
    requires Undisturbed(p0, p, active) && OwnersKept(p, q) && OneEntryMoved(p, q, t) && ChainsKept(p, q, active - {t})
    ensures OwnersKept(p0, q) && OneEntryMoved(p0, q, t) && ChainsKept(p0, q, active - {t})
  {
  }

  lemma CleanChain(p0: Pages, s0: Shape, p: Pages, s: Shape, q: Pages, t: TermRef, k: nat, direct: bool)
    requires Rewritten(p0, s0, p, s, t, k, direct)
    requires OwnersKept(p0, q) && KindsKept(p, q)
    requires AllRefsOf(q, Spliced(s.active[t], k, s.journal)) == LiveOnly(p0, AllRefsOf(p0, s0.active[t]))
    ensures Clean(q, Spliced(s.active[t], k, s.journal), direct)
  {
    hide OwnersKept, AllLive, Rewritten, LiveOnly, AllRefs, KindsKept, Spliced;
    CleanKinds(p0, s0, p, s, q, t, k, direct);
    var chain := Spliced(s.active[t], k, s.journal);
    forall i | 0 <= i < |chain|
      ensures AllLive(q, q[chain[i]].refs)
    {
      LiveOnPage(p0, q, chain, i, AllRefsOf(p0, s0.active[t]));
    }
  }

  lemma CleanKinds(p0: Pages, s0: Shape, p: Pages, s: Shape, q: Pages, t: TermRef, k: nat, direct: bool)
    requires Rewritten(p0, s0, p, s, t, k, direct) && KindsKept(p, q)
    ensures t in s.active && t in s0.active && k <= |s.active[t]|
    ensures var chain := Spliced(s.active[t], k, s.journal);
            forall i | 0 <= i < |chain| ::
              chain[i] < |q| && q[chain[i]].Posting? && q[chain[i]].kind == if direct then Direct else Sealed
  {
    hide OwnersKept, AllLive, DictionariesKept, LiveOnly, AllRefsOf;
    var bs := s.active[t];
    var chain := Spliced(bs, k, s.journal);
    forall i | 0 <= i < |chain|
      ensures chain[i] < |q| && q[chain[i]].Posting? && q[chain[i]].kind == if direct then Direct else Sealed
    {
      if i < k {
        assert chain[i] == bs[i];
        assert LiveSealed(p0, bs[i]);
        assert p[bs[i]] == p0[bs[i]];
      } else {
        assert chain[i] == s.journal[i - k];
      }
    }
  }

  lemma LiveOnPage(p0: Pages, q: Pages, chain: seq<nat>, i: nat, refs: seq<OwnerRef>)
    requires forall j | 0 <= j < |chain| :: chain[j] < |q| && q[chain[j]].Posting?
    requires OwnersKept(p0, q) && i < |chain|
    requires AllRefs(q, chain) == LiveOnly(p0, refs)
    ensures AllLive(q, q[chain[i]].refs)
  {
    LiveOnlyMembers(p0, refs);
    forall n | 0 <= n < |q[chain[i]].refs|
      ensures Live(q, q[chain[i]].refs[n])
    {
      RefOnPage(q, chain, i, q[chain[i]].refs[n]);
      OwnersDecide(p0, q, q[chain[i]].refs[n]);
    }
  }

  lemma {:induction false} RefOnPage(p: Pages, bs: seq<nat>, i: nat, r: OwnerRef)
    requires forall j | 0 <= j < |bs| :: bs[j] < |p| && p[bs[j]].Posting?
    requires i < |bs| && r in p[bs[i]].refs
    ensures r in AllRefs(p, bs)
    decreases |bs|
  {
    if i < |bs| - 1 {
      RefOnPage(p, bs[..|bs| - 1], i, r);
    }
  }

  // ----- the rewrite loop -----

  /** The rewrite so far: nothing reachable changed, and the draft holds `emitted`. */
  ghost predicate Drafting(p0: Pages, s0: Shape, p: Pages, s: Shape, t: TermRef, direct: bool, emitted: seq<OwnerRef>,
      d: Draft)
  {
    && Retained(p0, s0, p, s) && t in s.active
    && DraftOk(p, s, t, direct, emitted, d)
    && Sorted(emitted)
  }

  lemma RetainedSelf(p: Pages, s: Shape)
    requires Good(p, s)
    ensures Retained(p, s, p, s)
  {
    hide Good, Undisturbed;
    UndisturbedSelf(p, s);
  }

  lemma RetainedStep(p0: Pages, s0: Shape, p: Pages, s: Shape, q: Pages, s': Shape)
    requires Retained(p0, s0, p, s) && Undisturbed(p, q, s.active) && s'.active == s.active && s'.buckets == s.buckets
    ensures Retained(p0, s0, q, s')
  {
    hide Undisturbed;
    UndisturbedStep(p0, p, q, s0);
  }

  lemma CacheKept(p: Pages, q: Pages, c: Cache)
    requires OwnersKept(p, q) && CacheOk(p, c)
    ensures CacheOk(q, c)
  {
  }

  /** An empty draft over a state without a journal. */
  lemma EmptyDraft(p: Pages, s: Shape, t: TermRef, direct: bool, meta: Page)
    requires s.journal == [] && t in s.active && 0 < |p| && meta == p[0]
    requires Good(p, s)
    ensures Drafting(p, s, p, s, t, direct, [], Draft(meta, None, 0, 0))
  {
    hide BucketsOk, FreeOk, PostingsOk, TermsOk, PagesOk, Retained;
    RetainedSelf(p, s);
  }

  lemma BuilderTail(p: Pages, s: Shape)
    requires Good(p, s)
    ensures TailReady(p, s)
    ensures p[0].journal.Journal? ==> PageOk(p[0].journal.tail, p[p[0].journal.tail])
  {
    hide BucketsOk, FreeOk, PostingsOk, TermsOk, PageOk;
    StoreReady(p, s);
  }

  /** After the batch the draft has no page under construction. */
  lemma StoredDraft(p0: Pages, s0: Shape, p: Pages, s: Shape, t: TermRef, direct: bool, emitted: seq<OwnerRef>,
      d: Draft,
                    images: seq<(nat, Page)>, s': Shape)
    requires Drafting(p0, s0, p, s, t, direct, emitted, d) && d.output.Some?
    requires Stores(p, s, t, direct, images, d.output.value, s')
    ensures Drafting(p0, s0, Applied(p, images), s', t, direct, emitted,
                     Draft(Applied(p, images)[0], None, d.written + 1, d.reused))
  {
    hide Good, Sorted, AllRefsOf, Undisturbed, OutputPages, BuilderOk, Applied;
    RetainedStep(p0, s0, p, s, Applied(p, images), s');
  }

  /** A reserved block and a page holding one reference. */
  lemma OpenedDraft(p0: Pages, s0: Shape, p: Pages, s: Shape, t: TermRef, direct: bool, emitted: seq<OwnerRef>,
      d: Draft,
                    b: Builder, ref: OwnerRef, root: nat, d': Draft)
    requires Drafting(p0, s0, p, s, t, direct, emitted, d) && d.output.None?
    requires Reserved(p, s, b.block) && Push(NewBuilder(b.block, t, direct), ref, root) == Ok(Some(b))
    requires Resolves(p, ref) && root == RootOf(p, ref) && Sorted(emitted + [ref])
    requires 0 < |p| && p[0].Meta?
    requires d'.output == Some(b) && d'.written == d.written && d'.meta == p[0].(free := FreeAfter(p, b.block))
    ensures Drafting(p0, s0, p, s, t, direct, emitted + [ref], d')
  {
    hide Sorted, AllRefsOf, Retained, OutputPages;
  }

  lemma PushedDraft(p0: Pages, s0: Shape, p: Pages, s: Shape, t: TermRef, direct: bool, emitted: seq<OwnerRef>,
      d: Draft,
                    b: Builder, ref: OwnerRef, root: nat)
    requires Drafting(p0, s0, p, s, t, direct, emitted, d) && d.output.Some?
    requires Push(d.output.value, ref, root) == Ok(Some(b))
    requires Resolves(p, ref) && root == RootOf(p, ref) && Sorted(emitted + [ref])
    ensures Drafting(p0, s0, p, s, t, direct, emitted + [ref], d.(output := Some(b)))
  {
    hide Sorted, AllRefsOf, Retained, OutputPages, Reserved;
    var c := d.output.value;
    assert b.refs == c.refs + [ref];
    assert (AllRefsOf(p, s.journal) + c.refs) + [ref] == AllRefsOf(p, s.journal) + b.refs;
    BuilderGrows(p, s, t, direct, c, b, ref, root);
    hide BuilderOk;
  }

  lemma BuilderGrows(p: Pages, s: Shape, t: TermRef, direct: bool, c: Builder, b: Builder, ref: OwnerRef, root: nat)
    requires BuilderOk(p, s, t, direct, c) && Push(c, ref, root) == Ok(Some(b))
    requires Resolves(p, ref) && root == RootOf(p, ref)
    ensures BuilderOk(p, s, t, direct, b)
  {
    hide Resolves;
  }

  /** Pushing the next reference of an ordered stream is never an error. */
  lemma PushIsOrdered(p: Pages, s: Shape, t: TermRef, direct: bool, emitted: seq<OwnerRef>, d: Draft, ref: OwnerRef,
      root: nat)
    requires d.output.Some? && DraftOk(p, s, t, direct, emitted, d)
    requires Resolves(p, ref) && Sorted(emitted + [ref])
    ensures Push(d.output.value, ref, root).Ok?
  {
    hide AllRefsOf, OutputPages;
    var b := d.output.value;
    var all := emitted + [ref];
    assert all[|all| - 2] == b.refs[|b.refs| - 1];
    assert Before(all[|all| - 2], all[|all| - 1]);
  }

  lemma FreeFront(p: Pages, s: Shape)
    requires Good(p, s)
    ensures 0 < |p| <= NO_BLOCK && p[0].Meta? && PagesOk(p)
    ensures p[0].free == NO_BLOCK <==> s.free == []
    ensures s.free != [] ==> p[0].free == s.free[0] && 0 < s.free[0] < |p| && p[s.free[0]].Free?
  {
    hide BucketsOk, JournalOk, PostingsOk, TermsOk, PageOk;
  }

  /** Extending keeps everything and yields a reserved block. */
  lemma ExtendedDraft(p0: Pages, s0: Shape, p: Pages, s: Shape, t: TermRef, direct: bool, emitted: seq<OwnerRef>,
      d: Draft)
    requires Drafting(p0, s0, p, s, t, direct, emitted, d) && d.output.None?
    requires 0 < |p| < NO_BLOCK
    requires Good(p, s)
    ensures Good(p + [Zero], s)
    ensures Drafting(p0, s0, p + [Zero], s, t, direct, emitted, d)
    ensures Reserved(p + [Zero], s, |p|) && FreeAfter(p + [Zero], |p|) == p[0].free
    ensures OwnersKept(p, p + [Zero])
  {
    hide Good, Sorted, OwnersKept, DictionariesKept, ChainsKept, AllRefs;
    ExtendKeepsGood(p, s);
    RetainedStep(p0, s0, p, s, p + [Zero], s);
    ExtendedOutputs(p, s.journal, t, direct);
  }

  lemma ExtendedOutputs(p: Pages, journal: seq<nat>, t: TermRef, direct: bool)
    requires OutputPages(p, journal, t, direct)
    ensures OutputPages(p + [Zero], journal, t, direct)
    ensures AllRefsOf(p + [Zero], journal) == AllRefsOf(p, journal)
  {
    assert forall i | 0 <= i < |journal| :: (p + [Zero])[journal[i]] == p[journal[i]];
    AllRefsFrame(p, p + [Zero], journal);
  }

  lemma OwnersSame(p: Pages)
    ensures OwnersKept(p, p)
  {
  }

  lemma OwnersChain(p: Pages, q: Pages, r: Pages)
    requires OwnersKept(p, q) && OwnersKept(q, r)
    ensures OwnersKept(p, r)
  {
  }

  lemma BuilderReady(p: Pages, s: Shape, t: TermRef, direct: bool, b: Builder)
    requires BuilderOk(p, s, t, direct, b)
    ensures Finish(b).Ok? && 0 < b.block < |p|
  {
  }

  lemma TailPosting(p: Pages, s: Shape, t: TermRef, direct: bool)
    requires TailReady(p, s) && OutputPages(p, s.journal, t, direct) && s.journal != []
    ensures PostingOf(p, t, TailOf(s.journal)) && p[TailOf(s.journal)].kind != Mutable
  {
  }

  lemma StoredOwners(p: Pages, s: Shape, t: TermRef, direct: bool, images: seq<(nat, Page)>, b: Builder, s': Shape)
    requires Stores(p, s, t, direct, images, b, s')
    ensures OwnersKept(p, Applied(p, images))
  {
    hide Good;
  }

  lemma FreePageOk(p: Pages, s: Shape)
    requires Good(p, s)
    ensures s.free != [] ==> s.free[0] < |p| && PageOk(s.free[0], p[s.free[0]])
  {
    hide BucketsOk, JournalOk, PostingsOk, TermsOk, PageOk;
  }

  lemma PushedBlock(block: nat, t: TermRef, direct: bool, ref: OwnerRef, root: nat)
    requires Push(NewBuilder(block, t, direct), ref, root).Ok? &&
               Push(NewBuilder(block, t, direct), ref, root).value.Some?
    ensures Push(NewBuilder(block, t, direct), ref, root).value.value.block == block
  {
  }

  /** The part of the chain that a rewrite keeps as it is. */
  function KeptPages(prefix: Option<RetainedPrefix>): nat {
    if prefix.Some? then prefix.value.pages else 0
  }

  ghost predicate PrefixFor(p: Pages, bs: seq<nat>, prefix: Option<RetainedPrefix>, direct: bool) {
    && bs != []
    && (prefix.Some? ==>
          && !direct
          && 1 <= prefix.value.pages < |bs|
          && prefix.value.boundary == bs[prefix.value.pages - 1]
          && prefix.value.rewriteHead == bs[prefix.value.pages])
    && forall i | 0 <= i < KeptPages(prefix) :: LiveSealed(p, bs[i])
  }

  /** Filtering one more reference extends an ordered output. */
  lemma LiveNext(p: Pages, emitted: seq<OwnerRef>, refs: seq<OwnerRef>, i: nat)
    requires i < |refs| && Sorted(emitted + LiveOnly(p, refs))
    ensures LiveOnly(p, refs[..i + 1]) == LiveOnly(p, refs[..i]) + (if Live(p, refs[i]) then [refs[i]] else [])
    ensures Live(p, refs[i]) ==> Sorted(emitted + LiveOnly(p, refs[..i]) + [refs[i]])
  {
    hide Sorted, LiveOnly;
    LiveOnlyLast(p, refs, i);
    assert refs == refs[..i + 1] + refs[i + 1..];
    LiveOnlyAppend(p, refs[..i + 1], refs[i + 1..]);
    var one := if Live(p, refs[i]) then [refs[i]] else [];
    Regroup(emitted, LiveOnly(p, refs[..i]), one, LiveOnly(p, refs[i + 1..]));
    SortedParts(emitted + LiveOnly(p, refs[..i]) + one, LiveOnly(p, refs[i + 1..]));
  }

  lemma LiveOnlyLast(p: Pages, refs: seq<OwnerRef>, i: nat)
    requires i < |refs|
    ensures LiveOnly(p, refs[..i + 1]) == LiveOnly(p, refs[..i]) + (if Live(p, refs[i]) then [refs[i]] else [])
  {
    assert refs[..i + 1][..i] == refs[..i];
  }

  /** The live references of the pages `bs[k..i]` of a chain. */
  ghost function LiveSlice(p: Pages, bs: seq<nat>, k: nat, i: nat): seq<OwnerRef>
    requires k <= i <= |bs|
  {
    LiveOnly(p, AllRefsOf(p, bs[k..i]))
  }

  /** One more page of a chain, and its output stays ordered. */
  lemma LiveSliceNext(p: Pages, t: TermRef, bs: seq<nat>, k: nat, i: nat)
    requires TermOk(p, t, bs) && k <= i < |bs|
    ensures bs[i] < |p| && p[bs[i]].Posting?
    ensures LiveSlice(p, bs, k, i + 1) == LiveSlice(p, bs, k, i) + LiveOnly(p, p[bs[i]].refs)
    ensures Sorted(LiveSlice(p, bs, k, i) + LiveOnly(p, p[bs[i]].refs))
    ensures p[bs[i]].next == NextIn(bs, i)
  {
    hide Sorted, LiveOnly, AllRefs, PostChain, AllRefsOf;
    PostingsIn(p, t, bs);
    ChainNext(p, t, bs, i);
    SliceNext(p, EntryOf(p, t).first, bs, k, i);
  }

  lemma SliceNext(p: Pages, first: OwnerRef, bs: seq<nat>, k: nat, i: nat)
    requires forall j | 0 <= j < |bs| :: bs[j] < |p| && p[bs[j]].Posting?
    requires k <= i < |bs|
    requires Sorted([first] + AllRefs(p, bs))
    ensures LiveSlice(p, bs, k, i + 1) == LiveSlice(p, bs, k, i) + LiveOnly(p, p[bs[i]].refs)
    ensures Sorted(LiveSlice(p, bs, k, i) + LiveOnly(p, p[bs[i]].refs))
  {
    hide Sorted, LiveOnly, AllRefs, AllRefsOf;
    SliceSorted(p, first, bs, k, i + 1);
    assert bs[k..i + 1] == bs[k..i] + [bs[i]];
    OneMorePage(p, bs[k..i], bs[i]);
    LiveOnlyAppend(p, AllRefsOf(p, bs[k..i]), p[bs[i]].refs);
  }

  lemma ChainNext(p: Pages, t: TermRef, bs: seq<nat>, i: nat)
    requires PostChain(p, t, bs) && i < |bs|
    ensures p[bs[i]].next == NextIn(bs, i)
  {
  }

  lemma OneMorePage(p: Pages, before: seq<nat>, b: nat)
    requires forall j | 0 <= j < |before| :: before[j] < |p| && p[before[j]].Posting?
    requires b < |p| && p[b].Posting?
    ensures AllRefsOf(p, before + [b]) == AllRefsOf(p, before) + p[b].refs
  {
    var upTo := before + [b];
    assert upTo[..|upTo| - 1] == before;
  }

  lemma SliceSorted(p: Pages, first: OwnerRef, bs: seq<nat>, k: nat, i: nat)
    requires forall j | 0 <= j < |bs| :: bs[j] < |p| && p[bs[j]].Posting?
    requires k <= i <= |bs|
    requires Sorted([first] + AllRefs(p, bs))
    ensures Sorted(LiveSlice(p, bs, k, i))
  {
    hide Sorted, LiveOnly, AllRefs;
    var a, b, c := bs[..k], bs[k..i], bs[i..];
    assert bs == a + (b + c);
    AllRefsAppend(p, a, b + c);
    AllRefsAppend(p, b, c);
    SortedParts([first], AllRefs(p, bs));
    SortedParts(AllRefs(p, a), AllRefs(p, b + c));
    SortedParts(AllRefs(p, b), AllRefs(p, c));
    LiveOnlyMembers(p, AllRefs(p, b));
  }

  /** What the methods need to know about the source chain. */
  lemma SourceFacts(p: Pages, s: Shape, t: TermRef)
    requires t in s.active
    requires Good(p, s)
    ensures TermOk(p, t, s.active[t])
    ensures PagesOk(p) && 0 < |p| <= NO_BLOCK && p[0].Meta?
    ensures |s.active[t]| < |p|
  {
    hide BucketsOk, JournalOk, PostingsOk, FreeOk, PageOk, Sorted;
    assert TermOk(p, t, s.active[t]);
    ChainIsShort(p, t, s.active[t]);
  }

  lemma PageRefsResolve(p: Pages, s: Shape, b: nat)
    requires b < |p| && p[b].Posting?
    requires Good(p, s)
    ensures forall i | 0 <= i < |p[b].refs| :: Resolves(p, p[b].refs[i])
  {
    hide BucketsOk, JournalOk, TermsOk, FreeOk, PageOk, Resolves;
    assert PostingOk(p, s, b);
  }

  lemma KeptPage(p: Pages, s: Shape, q: Pages, s': Shape, t: TermRef, i: nat)
    requires Retained(p, s, q, s') && t in s.active && i < |s.active[t]|
    ensures s.active[t][i] < |p| && s.active[t][i] < |q| && q[s.active[t][i]] == p[s.active[t][i]]
    ensures OwnersKept(p, q)
  {
  }

  lemma DraftParts(p0: Pages, s0: Shape, p: Pages, s: Shape, t: TermRef, direct: bool, emitted: seq<OwnerRef>, d: Draft)
    requires Drafting(p0, s0, p, s, t, direct, emitted, d)
    ensures OwnersKept(p0, p)
  {
  }

  lemma LiveStep(p: Pages, refs: seq<OwnerRef>, i: nat)
    requires i < |refs|
    ensures LiveOnly(p, refs[..i + 1]) == LiveOnly(p, refs[..i]) + if Live(p, refs[i]) then [refs[i]] else []
  {
    assert refs[..i + 1][..i] == refs[..i];
  }

  lemma NothingLive(p: Pages, emitted: seq<OwnerRef>)
    ensures LiveOnly(p, []) == [] && emitted + LiveOnly(p, []) == emitted
  {
  }

  lemma ResolvesValid(p: Pages, r: OwnerRef)
    requires Resolves(p, r)
    ensures ValidRef(r)
  {
  }

  lemma EmptySlice(p: Pages, bs: seq<nat>, k: nat)
    requires k <= |bs|
    ensures LiveSlice(p, bs, k, k) == []
  {
  }

  lemma NoCacheOk(p: Pages)
    ensures CacheOk(p, NoCache)
  {
  }

  /** A page of a chain is the tail exactly when it is the last. */
  lemma SourceBlock(p: Pages, t: TermRef, bs: seq<nat>, i: nat)
    requires TermOk(p, t, bs) && i < |bs|
    ensures PostingOf(p, t, bs[i])
    ensures bs[i] == TailOf(bs) <==> i + 1 == |bs|
    ensures i + 1 < |bs| ==> bs[i + 1] < |p|
  {
    hide Sorted;
  }

  lemma SinglePageOk(p: Pages, b: nat)
    requires PagesOk(p) && b < |p|
    ensures PageOk(b, p[b])
  {
  }

  /** A finished copy is ready to be published, and the dictionary entry is still the same. */
  lemma CopyFinished(p0: Pages, s0: Shape, p: Pages, s: Shape, t: TermRef, prefix: Option<RetainedPrefix>, direct: bool,
      d: Draft)
    requires t in s0.active && PrefixFor(p0, s0.active[t], prefix, direct)
    requires KeptPages(prefix) < |s0.active[t]|
    requires d.output.None?
    requires Drafting(p0, s0, p, s, t, direct, LiveSlice(p0, s0.active[t], KeptPages(prefix), |s0.active[t]|), d)
    requires Good(p0, s0) && Good(p, s)
    ensures Rewritten(p0, s0, p, s, t, KeptPages(prefix), direct)
    ensures Publishable(p, s, t, KeptPages(prefix))
    ensures AllRefsOf(p, s.active[t][..KeptPages(prefix)]) + AllRefsOf(p, s.journal) ==
              LiveOnly(p0, AllRefsOf(p0, s0.active[t]))
  {
    hide Good, Retained, Sorted, OutputPages, AllRefsOf, LiveOnly, TermOk, LiveSealed;
    var k := KeptPages(prefix);
    SourceFacts(p0, s0, t);
    SourceFacts(p, s, t);
    assert s0.active[t][k..|s0.active[t]|] == s0.active[t][k..];
    RewrittenPublishable(p0, s0, p, s, t, k, direct);
  }

  /** The reads that guard publication all agree with the captured chain. */
  lemma PublishReads(p0: Pages, s0: Shape, p: Pages, s: Shape, t: TermRef, prefix: Option<RetainedPrefix>, direct: bool,
      d: Draft)
    requires t in s0.active && PrefixFor(p0, s0.active[t], prefix, direct)
    requires d.output.None?
    requires Drafting(p0, s0, p, s, t, direct, LiveSlice(p0, s0.active[t], KeptPages(prefix), |s0.active[t]|), d)
    requires Good(p0, s0) && Good(p, s)
    ensures 0 < |p| && p[0].Meta? && d.meta == p[0]
    ensures p[0].journal.Journal? ==>
              p[0].journal.phase == Building && p[0].journal.head == HeadOf(s.journal) &&
              p[0].journal.tail == TailOf(s.journal)
    ensures p[0].journal.NoJournal? <==> s.journal == []
    ensures s.journal != [] ==> TailOf(s.journal) < NO_BLOCK
    ensures IsTerm(p, t) && PageOk(t.page, p[t.page])
    ensures EntryOf(p, t).head == HeadOf(s0.active[t]) && EntryOf(p, t).tail == TailOf(s0.active[t])
    ensures s.active[t] == s0.active[t]
    ensures prefix.Some? ==>
              && PostingOf(p, t, prefix.value.boundary) && PageOk(prefix.value.boundary, p[prefix.value.boundary])
              && p[prefix.value.boundary].kind == Sealed && p[prefix.value.boundary].next == prefix.value.rewriteHead
  {
    hide Good, Sorted, OutputPages, AllRefsOf, LiveSlice, TermOk, LiveSealed, OwnersKept, DictionariesKept, ChainsKept,
        PageOk;
    SourceFacts(p, s, t);
    BuilderTail(p, s);
    JournalHead(p, s);
    TermEnds(p, t, s.active[t]);
    SinglePageOk(p, t.page);
    if prefix.Some? {
      var i := prefix.value.pages - 1;
      KeptPage(p0, s0, p, s, t, i);
      SourceBlock(p, t, s.active[t], i);
      LinkedTo(p, t, s.active[t], i);
      SealedPage(p0, s0.active[t][i]);
      SinglePageOk(p, s.active[t][i]);
    }
  }

  lemma JournalHead(p: Pages, s: Shape)
    requires Good(p, s)
    ensures 0 < |p| && p[0].Meta?
    ensures p[0].journal.NoJournal? <==> s.journal == []
    ensures p[0].journal.Journal? ==> p[0].journal.head == HeadOf(s.journal)
  {
    hide BucketsOk, FreeOk, PostingsOk, TermsOk, PagesOk;
  }

  lemma TermEnds(p: Pages, t: TermRef, bs: seq<nat>)
    requires TermOk(p, t, bs)
    ensures IsTerm(p, t) && EntryOf(p, t).head == HeadOf(bs) && EntryOf(p, t).tail == TailOf(bs)
  {
  }

  lemma LinkedTo(p: Pages, t: TermRef, bs: seq<nat>, i: nat)
    requires TermOk(p, t, bs) && i + 1 < |bs|
    ensures bs[i] < |p| && p[bs[i]].Posting? && p[bs[i]].next == bs[i + 1]
  {
    hide Sorted;
    ChainNext(p, t, bs, i);
  }

  lemma SealedPage(p: Pages, b: nat)
    requires LiveSealed(p, b)
    ensures b < |p| && p[b].Posting? && p[b].kind == Sealed
  {
  }

  lemma PublishedParts(s: Shape, t: TermRef, k: nat)
    requires t in s.active && k <= |s.active[t]|
    ensures PublishedShape(s, t, k).journal == s.active[t][k..]
    ensures t in PublishedShape(s, t, k).active && |PublishedShape(s, t, k).active[t]| == k + |s.journal|
    ensures PublishedShape(s, t, k).buckets == s.buckets
    ensures PublishedShape(s, t, k).active[t] == Spliced(s.active[t], k, s.journal)
    ensures PublishedShape(s, t, k).free == s.free
  {
  }

  lemma SplicedEnds(p: Pages, s: Shape, t: TermRef, k: nat)
    requires t in s.active && k < |s.active[t]|
    ensures k == 0 ==> HeadOf(Spliced(s.active[t], k, s.journal)) == HeadOf(s.journal)
    ensures k == 0 ==> TailOf(Spliced(s.active[t], k, s.journal)) == TailOf(s.journal)
    ensures k > 0 ==> HeadOf(Spliced(s.active[t], k, s.journal)) == s.active[t][0]
    ensures k > 0 ==>
              TailOf(Spliced(s.active[t], k, s.journal))
              == if s.journal == [] then s.active[t][k - 1] else TailOf(s.journal)
  {
  }

  lemma PublishesGood(p: Pages, s: Shape, t: TermRef, k: nat, images: seq<(nat, Page)>)
    requires Publishes(p, s, t, k, images)
    ensures Fits(p, images) && Good(Applied(p, images), PublishedShape(s, t, k))
  {
  }
}
