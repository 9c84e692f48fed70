/** How whole compaction runs relate the states before and after them. */
module CompactionRuns {
  import opened Outcomes
  import opened PostingPages
  import opened PostingSteps
  import opened CompactionFacts

  datatype CompactStats = CompactStats(rewrittenTerms: nat, removedPostings: nat, writtenPages: nat,
                                       reusedPages: nat, reclaimedPages: nat, retainedPages: nat)

  const NO_WORK := CompactStats(0, 0, 0, 0, 0, 0)

  /** The same dictionary pages, up to the ends of posting chains. */
  ghost predicate SameTerms(p: Pages, q: Pages) {
    && |p| <= |q|
    && (forall b | 0 <= b < |p| && p[b].Dictionary? ::
          && q[b].Dictionary? && q[b].next == p[b].next && |q[b].entries| == |p[b].entries|
          && forall j | 0 <= j < |p[b].entries| ::
               q[b].entries[j].(head := p[b].entries[j].head, tail := p[b].entries[j].tail) == p[b].entries[j])
    && (forall b | 0 <= b < |q| && q[b].Dictionary? :: b < |p| && p[b].Dictionary?)
  }

  /** A term's stream is as it was, or lost exactly its removed owners. */
  ghost predicate Filtered(p: Pages, s: Shape, q: Pages, s': Shape, t: TermRef)
    requires t in s.active && t in s'.active
  {
    || AllRefsOf(q, s'.active[t]) == AllRefsOf(p, s.active[t])
    || AllRefsOf(q, s'.active[t]) == LiveOnly(p, AllRefsOf(p, s.active[t]))
  }

  /** What any number of finished, failed or crashed runs may do to a good state. */
  ghost predicate Progress(p: Pages, s: Shape, q: Pages, s': Shape) {
    && OwnersKept(p, q) && SameTerms(p, q)
    && s'.active.Keys == s.active.Keys && s'.buckets == s.buckets
    && (forall t | t in s.active :: Filtered(p, s, q, s', t))
  }

  /** Chains that needed no work still need none. */
  ghost predicate StaysClean(p: Pages, s: Shape, q: Pages, s': Shape, direct: bool) {
    s'.active.Keys == s.active.Keys
    && forall t | t in s.active && Clean(p, s.active[t], direct) :: Clean(q, s'.active[t], direct)
  }

  ghost predicate Forward(p: Pages, s: Shape, q: Pages, s': Shape, direct: bool) {
    Progress(p, s, q, s') && StaysClean(p, s, q, s', direct)
  }

  /** Entries other than `t` are exactly as they were. */
  ghost predicate OtherEntriesKept(p: Pages, q: Pages, t: TermRef) {
    forall u | IsTerm(p, u) && u != t :: IsTerm(q, u) && EntryOf(q, u) == EntryOf(p, u)
  }

  // ----- one run after another -----

  lemma ProgressSelf(p: Pages, s: Shape)
    ensures Progress(p, s, p, s) && (forall direct :: StaysClean(p, s, p, s, direct))
  {
  }

  lemma SameTermsTrans(p: Pages, q: Pages, r: Pages)
    requires SameTerms(p, q) && SameTerms(q, r)
    ensures SameTerms(p, r)
  {
    forall b | 0 <= b < |p| && p[b].Dictionary?
      ensures r[b].Dictionary? && r[b].next == p[b].next && |r[b].entries| == |p[b].entries|
      ensures forall j | 0 <= j < |p[b].entries| ::
                r[b].entries[j].(head := p[b].entries[j].head, tail := p[b].entries[j].tail) == p[b].entries[j]
    {
      forall j | 0 <= j < |p[b].entries|
        ensures r[b].entries[j].(head := p[b].entries[j].head, tail := p[b].entries[j].tail) == p[b].entries[j]
      {
        assert r[b].entries[j].(head := q[b].entries[j].head, tail := q[b].entries[j].tail) == q[b].entries[j];
      }
    }
  }

  lemma FilteredTrans(p: Pages, s: Shape, q: Pages, s': Shape, r: Pages, s'': Shape, t: TermRef)
    requires OwnersKept(p, q) && t in s.active && t in s'.active && t in s''.active
    requires Filtered(p, s, q, s', t) && Filtered(q, s', r, s'', t)
    ensures Filtered(p, s, r, s'', t)
  {
    hide AllRefsOf, LiveOnly, OwnersKept;
    var refs := AllRefsOf(p, s.active[t]);
    LiveOnlyKept(p, q, refs);
    LiveOnlyKept(p, q, LiveOnly(p, refs));
    LiveOnlyIdempotent(p, refs);
  }

  lemma ProgressTrans(p: Pages, s: Shape, q: Pages, s': Shape, r: Pages, s'': Shape)
    requires Progress(p, s, q, s') && Progress(q, s', r, s'')
    ensures Progress(p, s, r, s'')
  {
    hide OwnersKept, SameTerms, Filtered;
    OwnersChain(p, q, r);
    SameTermsTrans(p, q, r);
    forall t | t in s.active
      ensures Filtered(p, s, r, s'', t)
    {
      FilteredTrans(p, s, q, s', r, s'', t);
    }
  }

  lemma ForwardTrans(p: Pages, s: Shape, q: Pages, s': Shape, r: Pages, s'': Shape, direct: bool)
    requires Forward(p, s, q, s', direct) && Forward(q, s', r, s'', direct)
    ensures Forward(p, s, r, s'', direct)
  {
    hide Progress, Clean;
    ProgressTrans(p, s, q, s', r, s'');
  }

  /** The references a reader sees are the same after any such run. */
  lemma LiveStreamUnchanged(p: Pages, s: Shape, q: Pages, s': Shape, t: TermRef)
    requires Progress(p, s, q, s') && t in s.active
    ensures LiveOnly(q, AllRefsOf(q, s'.active[t])) == LiveOnly(p, AllRefsOf(p, s.active[t]))
  {
    hide AllRefsOf, LiveOnly, OwnersKept, SameTerms;
    LiveOnlyKept(p, q, AllRefsOf(q, s'.active[t]));
    LiveOnlyIdempotent(p, AllRefsOf(p, s.active[t]));
    assert Filtered(p, s, q, s', t);
  }

  // ----- single steps -----

  lemma CleanKept(p: Pages, q: Pages, bs: seq<nat>, direct: bool)
    requires OwnersKept(p, q) && Clean(p, bs, direct)
    requires forall i | 0 <= i < |bs| :: bs[i] < |q| && q[bs[i]] == p[bs[i]]
    ensures Clean(q, bs, direct)
  {
    forall i | 0 <= i < |bs|
      ensures AllLive(q, q[bs[i]].refs)
    {
      forall n | 0 <= n < |p[bs[i]].refs|
        ensures Live(q, p[bs[i]].refs[n])
      {
        assert AllLive(p, p[bs[i]].refs);
        OwnersDecide(p, q, p[bs[i]].refs[n]);
      }
    }
  }

  lemma ChainKept(p: Pages, q: Pages, active: map<TermRef, seq<nat>>, t: TermRef)
    requires ChainsKept(p, q, active) && t in active
    ensures forall i | 0 <= i < |active[t]| :: active[t][i] < |p| && active[t][i] < |q| &&
              q[active[t][i]] == p[active[t][i]]
    ensures AllRefsOf(q, active[t]) == AllRefsOf(p, active[t])
  {
    if forall i | 0 <= i < |active[t]| :: active[t][i] < |p| && p[active[t][i]].Posting? {
      AllRefsFrame(p, q, active[t]);
    }
  }

  lemma DictionariesSame(p: Pages, q: Pages)
    requires DictionariesKept(p, q)
    ensures SameTerms(p, q)
    ensures forall t :: OtherEntriesKept(p, q, t)
  {
  }

  lemma MovedSame(p: Pages, q: Pages, t: TermRef)
    requires OneEntryMoved(p, q, t)
    ensures SameTerms(p, q) && OtherEntriesKept(p, q, t)
  {
    forall u | IsTerm(p, u) && u != t
      ensures IsTerm(q, u) && EntryOf(q, u) == EntryOf(p, u)
    {
      MovedEntry(p, q, t, u);
    }
  }

  lemma RetainedForward(p: Pages, s: Shape, q: Pages, s': Shape, direct: bool, t: TermRef)
    requires Retained(p, s, q, s')
    ensures Forward(p, s, q, s', direct) && OtherEntriesKept(p, q, t)
  {
    hide OwnersKept, SameTerms, OtherEntriesKept, ChainsKept, DictionariesKept, Clean, AllRefsOf;
    DictionariesSame(p, q);
    forall u | u in s.active
      ensures Filtered(p, s, q, s', u)
      ensures Clean(p, s.active[u], direct) ==> Clean(q, s'.active[u], direct)
    {
      ChainKept(p, q, s.active, u);
      if Clean(p, s.active[u], direct) {
        CleanKept(p, q, s.active[u], direct);
      }
    }
  }

  lemma ReplacedForward(p: Pages, s: Shape, q: Pages, s': Shape, t: TermRef, direct: bool)
    requires Replaced(p, s, q, s', t, direct)
    ensures Forward(p, s, q, s', direct) && OtherEntriesKept(p, q, t)
  {
    hide OwnersKept, SameTerms, OtherEntriesKept, ChainsKept, OneEntryMoved, Clean, AllRefsOf, LiveOnly;
    MovedSame(p, q, t);
    forall u | u in s.active
      ensures Filtered(p, s, q, s', u)
      ensures Clean(p, s.active[u], direct) ==> Clean(q, s'.active[u], direct)
    {
      if u != t {
        assert u in s.active - {t} && (s.active - {t})[u] == s.active[u];
        ChainKept(p, q, s.active - {t}, u);
        if Clean(p, s.active[u], direct) {
          CleanKept(p, q, s.active[u], direct);
        }
      }
    }
  }

  // ----- deciding whether a chain needs work -----

  lemma {:induction false} MutableZero(p: Pages, bs: seq<nat>)
    requires forall i | 0 <= i < |bs| :: bs[i] < |p| && p[bs[i]].Posting?
    ensures CountMutable(p, bs) == 0 <==> forall i | 0 <= i < |bs| :: p[bs[i]].kind != Mutable
    decreases |bs|
  {
    if bs != [] {
      MutableZero(p, bs[..|bs| - 1]);
    }
  }

  lemma {:induction false} IndirectZero(p: Pages, bs: seq<nat>)
    requires forall i | 0 <= i < |bs| :: bs[i] < |p| && p[bs[i]].Posting?
    ensures CountIndirect(p, bs) == 0 <==> forall i | 0 <= i < |bs| :: p[bs[i]].kind == Direct
    decreases |bs|
  {
    if bs != [] {
      IndirectZero(p, bs[..|bs| - 1]);
    }
  }

  lemma {:induction false} DeadZero(p: Pages, bs: seq<nat>)
    requires forall i | 0 <= i < |bs| :: bs[i] < |p| && p[bs[i]].Posting?
    ensures |LiveOnly(p, AllRefs(p, bs))| <= |AllRefs(p, bs)|
    ensures |LiveOnly(p, AllRefs(p, bs))| == |AllRefs(p, bs)| <==> forall i | 0 <= i < |bs| :: AllLive(p, p[bs[i]].refs)
    decreases |bs|
  {
    hide LiveOnly, AllLive;
    if bs == [] {
      LiveOnlyFull(p, []);
    } else {
      var init := bs[..|bs| - 1];
      DeadZero(p, init);
      LiveOnlyAppend(p, AllRefs(p, init), p[bs[|bs| - 1]].refs);
      LiveOnlyFull(p, p[bs[|bs| - 1]].refs);
    }
  }

  /** Inspection skips a chain exactly when it is clean. */
  lemma SkipIffClean(p: Pages, bs: seq<nat>, direct: bool, st: ChainStats)
    requires forall i | 0 <= i < |bs| :: bs[i] < |p| && p[bs[i]].Posting?
    requires StatsCounts(p, bs, true, st)
    ensures st.mutablePages == 0 && st.dead == 0 && !(direct && st.indirectPages != 0) <==> Clean(p, bs, direct)
  {
    hide AllLive, LiveOnly, AllRefs, CountMutable, CountIndirect;
    MutableZero(p, bs);
    IndirectZero(p, bs);
    DeadZero(p, bs);
  }

  lemma {:induction false} ChainIsUnique(p: Pages, t: TermRef, a: seq<nat>, b: seq<nat>)
    requires |p| <= NO_BLOCK && PostChain(p, t, a) && PostChain(p, t, b) && HeadOf(a) == HeadOf(b)
    ensures a == b
  {
    if a != [] {
      assert PostingOf(p, t, a[0]);
      assert b != [];
      SharedSuffix(p, t, a, 0, b, 0);
      assert a[0..] == a && b[0..] == b;
    }
  }

  /** The term an entry names, as inspection will find it. */
  lemma TermAccepted(p: Pages, s: Shape, t: TermRef)
    requires IsTerm(p, t)
    requires Good(p, s)
    ensures t in s.active && TermOk(p, t, s.active[t])
    ensures Accepted(p, t, EntryOf(p, t).head, EntryOf(p, t).tail, Some(EntryOf(p, t).first), true, s.active[t])
    ensures RefsValid(p) && PagesOk(p) && 0 < |p| <= NO_BLOCK && p[0].Meta?
  {
    hide BucketsOk, JournalOk, FreeOk, Sorted, Resolves, PageOk;
    GoodRefsValid(p, s);
    var bs := s.active[t];
    forall i, k | 0 <= i < |bs| && 0 <= k < |p[bs[i]].refs|
      ensures Resolves(p, p[bs[i]].refs[k])
    {
      assert PostingOk(p, s, bs[i]);
    }
  }

  /** The found chain is the term's chain, and the summary describes it. */
  lemma InspectedTerm(p: Pages, s: Shape, t: TermRef, found: seq<nat>, st: ChainStats, direct: bool)
    requires IsTerm(p, t) && t in s.active && TermOk(p, t, s.active[t]) && |p| <= NO_BLOCK
    requires Accepted(p, t, EntryOf(p, t).head, EntryOf(p, t).tail, Some(EntryOf(p, t).first), true, found)
    requires StatsOk(p, found, true, st)
    ensures st.mutablePages == 0 && st.dead == 0 && !(direct && st.indirectPages != 0) <==>
              Clean(p, s.active[t], direct)
    ensures st.dead == |AllRefsOf(p, s.active[t])| - |LiveOnly(p, AllRefsOf(p, s.active[t]))|
    ensures s.active[t] != [] ==> PrefixFor(p, s.active[t], None, direct)
    ensures s.active[t] != [] && !direct ==> PrefixFor(p, s.active[t], st.prefix, false)
  {
    hide Sorted, ResolveAll, AllLive, LiveOnly, AllRefs, LiveSealed, Clean;
    ChainIsUnique(p, t, found, s.active[t]);
    PostingsIn(p, t, found);
    SkipIffClean(p, found, direct, st);
    var m :| PrefixAt(p, found, m, st.prefix);
  }

  // ----- whole dictionaries -----

  /** The first `n` entries of a dictionary page name clean chains. */
  ghost predicate CleanEntries(p: Pages, s: Shape, b: nat, n: nat, direct: bool) {
    forall j | 0 <= j < n :: TermRef(b, j) in s.active && Clean(p, s.active[TermRef(b, j)], direct)
  }

  ghost predicate CleanPage(p: Pages, s: Shape, b: nat, direct: bool) {
    b < |p| && p[b].Dictionary? && CleanEntries(p, s, b, |p[b].entries|, direct)
  }

  /** The first `n` dictionary pages of a bucket are clean. */
  ghost predicate CleanBucket(p: Pages, s: Shape, k: nat, n: nat, direct: bool) {
    k < |s.buckets| && n <= |s.buckets[k]| && forall i | 0 <= i < n :: CleanPage(p, s, s.buckets[k][i], direct)
  }

  ghost predicate CleanBuckets(p: Pages, s: Shape, n: nat, direct: bool) {
    n <= |s.buckets| && forall k | 0 <= k < n :: CleanBucket(p, s, k, |s.buckets[k]|, direct)
  }

  /** A reader that routes a term through its bucket can find it. */
  ghost predicate Reachable(p: Pages, s: Shape, t: TermRef) {
    IsTerm(p, t) && exists k :: 0 <= k < |s.buckets| && t.page in s.buckets[k]
  }

  lemma CleanEntriesForward(p: Pages, s: Shape, q: Pages, s': Shape, b: nat, n: nat, direct: bool)
    requires StaysClean(p, s, q, s', direct) && CleanEntries(p, s, b, n, direct)
    ensures CleanEntries(q, s', b, n, direct)
  {
    hide Clean;
  }

  lemma CleanPageForward(p: Pages, s: Shape, q: Pages, s': Shape, b: nat, direct: bool)
    requires Forward(p, s, q, s', direct) && CleanPage(p, s, b, direct)
    ensures CleanPage(q, s', b, direct)
  {
    hide OwnersKept, StaysClean, CleanEntries, Filtered;
    CleanEntriesForward(p, s, q, s', b, |p[b].entries|, direct);
  }

  lemma CleanBucketForward(p: Pages, s: Shape, q: Pages, s': Shape, k: nat, n: nat, direct: bool)
    requires Forward(p, s, q, s', direct) && CleanBucket(p, s, k, n, direct)
    ensures CleanBucket(q, s', k, n, direct)
  {
    hide CleanPage, OwnersKept, SameTerms, StaysClean;
    forall i | 0 <= i < n
      ensures CleanPage(q, s', s'.buckets[k][i], direct)
    {
      CleanPageForward(p, s, q, s', s.buckets[k][i], direct);
    }
  }

  lemma CleanBucketsForward(p: Pages, s: Shape, q: Pages, s': Shape, n: nat, direct: bool)
    requires Forward(p, s, q, s', direct) && CleanBuckets(p, s, n, direct)
    ensures CleanBuckets(q, s', n, direct)
  {
    hide CleanBucket, OwnersKept, SameTerms, StaysClean;
    forall k | 0 <= k < n
      ensures CleanBucket(q, s', k, |s'.buckets[k]|, direct)
    {
      CleanBucketForward(p, s, q, s', k, |s.buckets[k]|, direct);
    }
  }

  lemma ReachableClean(p: Pages, s: Shape, t: TermRef, direct: bool)
    requires CleanBuckets(p, s, |s.buckets|, direct) && Reachable(p, s, t)
    ensures t in s.active && Clean(p, s.active[t], direct)
  {
    hide Clean;
    var k :| 0 <= k < |s.buckets| && t.page in s.buckets[k];
    assert CleanBucket(p, s, k, |s.buckets[k]|, direct);
    var i :| 0 <= i < |s.buckets[k]| && s.buckets[k][i] == t.page;
    assert CleanPage(p, s, s.buckets[k][i], direct);
    assert TermRef(t.page, t.index) == t;
  }

  /** A clean chain reached by progress holds exactly the live references it started with. */
  lemma CleanIsFiltered(p: Pages, s: Shape, q: Pages, s': Shape, t: TermRef, direct: bool)
    requires Progress(p, s, q, s') && t in s.active && t in s'.active && Clean(q, s'.active[t], direct)
    ensures AllRefsOf(q, s'.active[t]) == LiveOnly(p, AllRefsOf(p, s.active[t]))
  {
    hide OwnersKept, SameTerms, LiveOnly, AllLive, AllRefs;
    assert Filtered(p, s, q, s', t);
    LiveOnlyKept(p, q, AllRefsOf(q, s'.active[t]));
    PrefixLive(q, s'.active[t]);
  }

  /** How a walk over one bucket proceeds. */
  lemma BucketFacts(p: Pages, s: Shape, k: nat)
    requires k < BUCKETS
    requires Good(p, s)
    ensures 0 < |p| && p[0].Meta? && k < |p[0].buckets| && k < |s.buckets| == BUCKETS
    ensures DictChain(p, k, p[0].buckets[k], s.buckets[k])
    ensures |p| <= NO_BLOCK && PagesOk(p)
  {
    hide PageOk, JournalOk, FreeOk, TermsOk, PostingsOk, DictChain;
  }

  lemma DictPage(p: Pages, k: nat, ends: (nat, nat), bs: seq<nat>, i: nat)
    requires DictChain(p, k, ends, bs) && i < |bs| && |p| <= NO_BLOCK
    ensures bs[i] < |p| && p[bs[i]].Dictionary?
    ensures forall j | 0 <= j < |p[bs[i]].entries| :: p[bs[i]].entries[j].bucket == k
    ensures bs[i] == TailOf(bs) <==> i + 1 == |bs|
    ensures i + 1 < |bs| ==> p[bs[i]].next == bs[i + 1] && bs[i] < bs[i + 1] <= TailOf(bs) && bs[i + 1] != NO_BLOCK
    ensures ends.1 == TailOf(bs)
  {
    if i + 1 < |bs| {
      assert p[bs[i]].next == NextIn(bs, i);
    }
  }

  const U32_MAX: nat := 0xFFFF_FFFF
  const U64_MAX: nat := 0xFFFF_FFFF_FFFF_FFFF

  lemma EmptyChain(p: Pages, t: TermRef, bs: seq<nat>, direct: bool)
    requires |p| <= NO_BLOCK && TermOk(p, t, bs) && IsTerm(p, t) && EntryOf(p, t).head == NO_BLOCK
    ensures bs == [] && Clean(p, bs, direct)
  {
    assert bs != [] ==> PostingOf(p, t, bs[0]);
  }

  lemma HeadlessChain(p: Pages, t: TermRef, bs: seq<nat>)
    requires TermOk(p, t, bs) && IsTerm(p, t) && EntryOf(p, t).head != NO_BLOCK
    ensures bs != []
  {
  }

  lemma OutcomeForward(p: Pages, s: Shape, q: Pages, s': Shape, t: TermRef, direct: bool)
    requires Retained(p, s, q, s') || Replaced(p, s, q, s', t, direct)
    ensures Forward(p, s, q, s', direct) && OtherEntriesKept(p, q, t)
  {
    hide Retained, Replaced, Forward, OtherEntriesKept;
    if Retained(p, s, q, s') {
      RetainedForward(p, s, q, s', direct, t);
    } else {
      ReplacedForward(p, s, q, s', t, direct);
    }
  }

  lemma ReplacedStream(p: Pages, s: Shape, q: Pages, s': Shape, t: TermRef, direct: bool)
    requires Replaced(p, s, q, s', t, direct)
    ensures t in s.active && t in s'.active && Clean(q, s'.active[t], direct)
    ensures AllRefsOf(q, s'.active[t]) == LiveOnly(p, AllRefsOf(p, s.active[t]))
  {
  }

  lemma RetainedAfter(p: Pages, s: Shape, q: Pages, s': Shape)
    requires Undisturbed(p, q, s'.active) && s'.active == s.active && s'.buckets == s.buckets
    ensures Retained(p, s, q, s')
  {
  }

  lemma OtherEntriesTrans(p: Pages, q: Pages, r: Pages, t: TermRef)
    requires OtherEntriesKept(p, q, t) && OtherEntriesKept(q, r, t)
    ensures OtherEntriesKept(p, r, t)
  {
  }

  lemma StillClean(p: Pages, s: Shape, q: Pages, s': Shape, t: TermRef, direct: bool)
    requires Retained(p, s, q, s') && t in s.active && Clean(p, s.active[t], direct)
    ensures t in s'.active && Clean(q, s'.active[t], direct)
    ensures AllRefsOf(q, s'.active[t]) == AllRefsOf(p, s.active[t])
  {
    hide OwnersKept, DictionariesKept, ChainsKept, Clean, AllRefsOf;
    ChainKept(p, q, s.active, t);
    CleanKept(p, q, s.active[t], direct);
  }

  /** A term was replaced between `p` and `q`, and the journal drained, wholly or not, between `q` and `r`. */
  lemma ReplacedThenDrained(p: Pages, s: Shape, q: Pages, s': Shape, r: Pages, s'': Shape, t: TermRef, direct: bool)
    requires Replaced(p, s, q, s', t, direct)
    requires Undisturbed(q, r, s''.active) && s''.active == s'.active && s''.buckets == s'.buckets
    ensures Retained(q, s', r, s'')
    ensures Forward(p, s, r, s'', direct) && OtherEntriesKept(p, r, t)
    ensures t in s''.active && Clean(r, s''.active[t], direct)
    ensures AllRefsOf(r, s''.active[t]) == LiveOnly(p, AllRefsOf(p, s.active[t]))
  {
    hide Forward, OtherEntriesKept, Clean, Replaced, Retained, AllRefsOf, LiveOnly, Undisturbed;
    ReplacedForward(p, s, q, s', t, direct);
    ReplacedStream(p, s, q, s', t, direct);
    RetainedAfter(q, s', r, s'');
    RetainedForward(q, s', r, s'', direct, t);
    ForwardTrans(p, s, q, s', r, s'', direct);
    OtherEntriesTrans(p, q, r, t);
    StillClean(q, s', r, s'', t, direct);
  }

  lemma MetaLoads(p: Pages, s: Shape)
    requires Good(p, s)
    ensures 0 < |p| && PageOk(0, p[0])
  {
    hide JournalOk, FreeOk, TermsOk, PostingsOk, BucketsOk, PageOk;
  }

  /** Nothing in the dictionary needs work and no journal is pending. */
  ghost predicate Settled(p: Pages, s: Shape, direct: bool) {
    s.journal == [] && CleanBuckets(p, s, |s.buckets|, direct)
  }

  lemma SettledEntry(p: Pages, s: Shape, k: nat, i: nat, j: nat, direct: bool)
    requires Settled(p, s, direct) && k < |s.buckets| && i < |s.buckets[k]|
    requires s.buckets[k][i] < |p| && p[s.buckets[k][i]].Dictionary? && j < |p[s.buckets[k][i]].entries|
    ensures TermRef(s.buckets[k][i], j) in s.active && Clean(p, s.active[TermRef(s.buckets[k][i], j)], direct)
  {
    hide Clean;
    assert CleanBucket(p, s, k, |s.buckets[k]|, direct);
    assert CleanPage(p, s, s.buckets[k][i], direct);
  }

  lemma MoreEntries(p: Pages, s: Shape, q: Pages, s': Shape, b: nat, j: nat, direct: bool)
    requires StaysClean(p, s, q, s', direct) && CleanEntries(p, s, b, j, direct)
    requires TermRef(b, j) in s'.active && Clean(q, s'.active[TermRef(b, j)], direct)
    ensures CleanEntries(q, s', b, j + 1, direct)
  {
    hide Clean, StaysClean;
    CleanEntriesForward(p, s, q, s', b, j, direct);
  }

  /** A dictionary image read earlier still describes the entries not visited yet. */
  ghost predicate ImageCurrent(p: Pages, b: nat, image: Page, j: nat) {
    && b < |p| && p[b].Dictionary? && image.Dictionary?
    && |p[b].entries| == |image.entries| && p[b].next == image.next
    && (forall i | j <= i < |image.entries| :: p[b].entries[i] == image.entries[i])
  }

  lemma ImageStays(p: Pages, q: Pages, b: nat, image: Page, j: nat)
    requires ImageCurrent(p, b, image, j) && SameTerms(p, q) && OtherEntriesKept(p, q, TermRef(b, j))
    ensures ImageCurrent(q, b, image, j + 1)
  {
    forall i | j + 1 <= i < |image.entries|
      ensures q[b].entries[i] == image.entries[i]
    {
      var u := TermRef(b, i);
      assert IsTerm(p, u) && EntryOf(p, u) == p[b].entries[i];
      assert EntryOf(q, u) == q[b].entries[i];
    }
  }

  lemma ForwardParts(p: Pages, s: Shape, q: Pages, s': Shape, direct: bool)
    requires Forward(p, s, q, s', direct)
    ensures SameTerms(p, q) && StaysClean(p, s, q, s', direct) && Progress(p, s, q, s')
    ensures s'.active.Keys == s.active.Keys && s'.buckets == s.buckets
  {
  }

  lemma PageDone(p: Pages, s: Shape, k: nat, i: nat, b: nat, direct: bool)
    requires CleanBucket(p, s, k, i, direct) && i < |s.buckets[k]| && b == s.buckets[k][i] && CleanPage(p, s, b, direct)
    ensures CleanBucket(p, s, k, i + 1, direct)
  {
    hide CleanPage;
  }

  lemma BucketDone(p: Pages, s: Shape, k: nat, direct: bool)
    requires CleanBuckets(p, s, k, direct) && k < |s.buckets| && CleanBucket(p, s, k, |s.buckets[k]|, direct)
    ensures CleanBuckets(p, s, k + 1, direct)
  {
    hide CleanBucket;
  }

  lemma ForwardSelf(p: Pages, s: Shape, direct: bool)
    ensures Forward(p, s, p, s, direct)
  {
    hide OwnersKept, SameTerms, Clean, AllRefsOf;
    ProgressSelf(p, s);
  }

  lemma NoEntries(p: Pages, s: Shape, b: nat, direct: bool)
    ensures CleanEntries(p, s, b, 0, direct)
  {
  }

  lemma NoBuckets(p: Pages, s: Shape, direct: bool)
    ensures CleanBuckets(p, s, 0, direct)
  {
  }

  lemma BucketEnds(p: Pages, k: nat, ends: (nat, nat), bs: seq<nat>)
    requires DictChain(p, k, ends, bs) && |p| <= NO_BLOCK
    ensures ends.0 == NO_BLOCK <==> bs == []
    ensures bs != [] ==> ends.0 == bs[0]
    ensures ends.1 == TailOf(bs)
  {
  }

  lemma ProgressKeys(p: Pages, s: Shape, q: Pages, s': Shape)
    requires Progress(p, s, q, s')
    ensures s'.active.Keys == s.active.Keys && s'.buckets == s.buckets
  {
  }

  lemma StillReachable(p: Pages, s: Shape, q: Pages, s': Shape, t: TermRef)
    requires Progress(p, s, q, s') && Reachable(p, s, t)
    ensures Reachable(q, s', t)
  {
    hide OwnersKept, Filtered;
    var k :| 0 <= k < |s.buckets| && t.page in s.buckets[k];
    assert IsTerm(q, t);
  }

  // ----- what the durable invariant says -----

  /**
   Every posting block is on exactly one chain: the active chain of its own term or the
   journal, never both, on no other term's chain, and never on the free list.
   */
  lemma PostingHasOneOwner(p: Pages, s: Shape, b: nat)
    requires b < |p| && p[b].Posting?
    requires Good(p, s)
    ensures p[b].term in s.active
    ensures b in s.journal <==> b !in s.active[p[b].term]
    ensures forall t | t in s.active && b in s.active[t] :: t == p[b].term
    ensures b !in s.free
  {
    hide BucketsOk, PagesOk, Sorted, Resolves;
    assert PostingOk(p, s, b);
    ActiveBlocks(p, s);
    JournalBlocks(p, s);
  }

  /** A free block is on the free list and on no chain. */
  lemma FreeHasOneOwner(p: Pages, s: Shape, b: nat)
    requires b < |p| && p[b].Free?
    requires Good(p, s)
    ensures b in s.free && b !in s.journal
    ensures forall t | t in s.active :: b !in s.active[t]
  {
    hide BucketsOk, PagesOk, Sorted, Resolves;
    ActiveBlocks(p, s);
    JournalBlocks(p, s);
  }

  /** A block that was only reserved is referred to by nothing. */
  lemma OrphanIsUnreferenced(p: Pages, s: Shape, b: nat)
    requires b < |p| && p[b].Zero?
    requires Good(p, s)
    ensures b !in s.free && b !in s.journal
    ensures forall t | t in s.active :: b !in s.active[t]
  {
    hide BucketsOk, PagesOk, Sorted, Resolves;
    ActiveBlocks(p, s);
    JournalBlocks(p, s);
  }

  /** Following links from a dictionary entry collects exactly the term's active chain. */
  lemma ReaderWalksActive(p: Pages, s: Shape, t: TermRef)
    requires IsTerm(p, t)
    requires Good(p, s)
    ensures t in s.active
    ensures Walk(p, EntryOf(p, t).head, |p|) == s.active[t]
  {
    hide Good;
    TermAccepted(p, s, t);
    SourceFacts(p, s, t);
    TermEnds(p, t, s.active[t]);
    TermChain(p, t, s.active[t]);
    WalkIsChain(p, t, s.active[t], 0, |p|);
    assert s.active[t][0..] == s.active[t];
  }

  lemma TermChain(p: Pages, t: TermRef, bs: seq<nat>)
    requires TermOk(p, t, bs)
    ensures PostChain(p, t, bs)
  {
  }
}
