/**
 The four durable transitions of compaction, as functions on pages, and the proof that
 each keeps the durable invariant. A batch committed by the host is one of these, or two
 reclaims at once.
 */
module PostingSteps {
  import opened FiniteSets
  import opened PostingPages

  /** Canonical owner pages are the same in both states. */
  ghost predicate OwnersKept(p: Pages, q: Pages) {
    && |p| <= |q|
    && (forall b | 0 <= b < |p| && p[b].Owners? :: q[b] == p[b])
    && (forall b | 0 <= b < |q| && q[b].Owners? :: b < |p| && p[b].Owners?)
  }

  ghost predicate DictionariesKept(p: Pages, q: Pages) {
    && |p| <= |q|
    && (forall b | 0 <= b < |p| && p[b].Dictionary? :: q[b] == p[b])
    && (forall b | 0 <= b < |q| && q[b].Dictionary? :: b < |p| && p[b].Dictionary?)
  }

  lemma OwnersDecide(p: Pages, q: Pages, r: OwnerRef)
    requires OwnersKept(p, q)
    ensures Resolves(p, r) == Resolves(q, r)
    ensures Live(p, r) == Live(q, r)
    ensures Resolves(p, r) ==> RootOf(p, r) == RootOf(q, r)
  {
  }

  lemma LiveOnlyKept(p: Pages, q: Pages, refs: seq<OwnerRef>)
    requires OwnersKept(p, q)
    ensures LiveOnly(p, refs) == LiveOnly(q, refs)
  {
    forall i | 0 <= i < |refs|
      ensures Live(p, refs[i]) == Live(q, refs[i])
    {
      OwnersDecide(p, q, refs[i]);
    }
    LiveOnlyAgrees(p, q, refs);
  }

  /** `AllRefs`, made total for use where the pages are known to be postings. */
  ghost function AllRefsOf(p: Pages, bs: seq<nat>): seq<OwnerRef> {
    if forall i | 0 <= i < |bs| :: bs[i] < |p| && p[bs[i]].Posting? then AllRefs(p, bs) else []
  }

  lemma TermFrame(p: Pages, q: Pages, t: TermRef, bs: seq<nat>)
    requires TermOk(p, t, bs)
    requires IsTerm(q, t) && EntryOf(q, t) == EntryOf(p, t)
    requires forall i | 0 <= i < |bs| :: bs[i] < |q| && q[bs[i]] == p[bs[i]]
    ensures TermOk(q, t, bs)
    ensures AllRefsOf(q, bs) == AllRefsOf(p, bs)
  {
    AllRefsFrame(p, q, bs);
  }

  /** The block lies on its term's active chain or on the journal. */
  ghost predicate Placed(s: Shape, t: TermRef, b: nat) {
    t in s.active && (b in s.active[t] || b in s.journal)
  }

  lemma PostingFrame(p: Pages, s: Shape, q: Pages, s': Shape, b: nat)
    requires OwnersKept(p, q)
    requires b < |p| && p[b].Posting? && PostingOk(p, s, b)
    requires q[b].Posting? && Relinked(q[b], p[b].next) == p[b]
    requires Placed(s', p[b].term, b)
    ensures PostingOk(q, s', b)
  {
    forall i | 0 <= i < |p[b].refs|
      ensures Resolves(q, p[b].refs[i]) && RootOf(q, p[b].refs[i]) == RootOf(p, p[b].refs[i])
    {
      OwnersDecide(p, q, p[b].refs[i]);
    }
  }

  /** No page of any active chain differs between the two states. */
  ghost predicate ChainsKept(p: Pages, q: Pages, active: map<TermRef, seq<nat>>) {
    forall t, i | t in active && 0 <= i < |active[t]| ::
      active[t][i] < |p| && active[t][i] < |q| && q[active[t][i]] == p[active[t][i]]
  }

  lemma TermsFrame(p: Pages, q: Pages, active: map<TermRef, seq<nat>>)
    requires TermsOk(p, active)
    requires DictionariesKept(p, q) && ChainsKept(p, q, active)
    ensures TermsOk(q, active)
    ensures forall t | t in active :: AllRefsOf(q, active[t]) == AllRefsOf(p, active[t])
  {
    forall t | t in active
      ensures TermOk(q, t, active[t]) && AllRefsOf(q, active[t]) == AllRefsOf(p, active[t])
    {
      TermFrame(p, q, t, active[t]);
    }
  }

  lemma PostingsFrame(p: Pages, s: Shape, q: Pages, s': Shape)
    requires PostingsOk(p, s) && OwnersKept(p, q)
    requires forall b | 0 <= b < |q| && q[b].Posting? ::
               || PostingOk(q, s', b)
               || (&& b < |p| && p[b].Posting? && Relinked(q[b], p[b].next) == p[b]
                   && (Placed(s, p[b].term, b) ==> Placed(s', p[b].term, b)))
    ensures PostingsOk(q, s')
  {
    forall b | 0 <= b < |q| && q[b].Posting?
      ensures PostingOk(q, s', b)
    {
      if !PostingOk(q, s', b) {
        PostingFrame(p, s, q, s', b);
      }
    }
  }

  lemma BucketsFrame(p: Pages, q: Pages, buckets: seq<seq<nat>>)
    requires 0 < |p| && p[0].Meta? && BucketsOk(p, buckets)
    requires DictionariesKept(p, q)
    requires q[0].Meta? && q[0].buckets == p[0].buckets
    ensures BucketsOk(q, buckets)
  {
    forall k | 0 <= k < BUCKETS
      ensures DictChain(q, k, q[0].buckets[k], buckets[k])
    {
      assert DictChain(p, k, p[0].buckets[k], buckets[k]);
    }
  }

  lemma JournalFrame(p: Pages, s: Shape, q: Pages)
    requires 0 < |p| <= |q| && p[0].Meta? && JournalOk(p, s)
    requires q[0].Meta? && q[0].journal == p[0].journal
    requires forall i | 0 <= i < |s.journal| :: s.journal[i] < |p| && q[s.journal[i]] == p[s.journal[i]]
    ensures JournalOk(q, s)
  {
    if s.journal != [] {
      AllRefsFrame(p, q, s.journal);
    }
  }

  // ----- extension -----

  /** A crash after an extension leaves a block of zeros that nothing refers to. */
  lemma ExtendKeepsGood(p: Pages, s: Shape)
    requires Good(p, s) && |p| < NO_BLOCK
    ensures Good(p + [Zero], s)
    ensures OwnersKept(p, p + [Zero]) && DictionariesKept(p, p + [Zero])
    ensures ChainsKept(p, p + [Zero], s.active)
  {
    hide TermsOk, PostingsOk, JournalOk, BucketsOk, PostingOk, PageOk;
    var q := p + [Zero];
    assert forall b | 0 <= b < |p| :: q[b] == p[b];
    assert PageOk(|p|, Zero) by { ZeroOk(|p|); }
    ActiveBlocks(p, s);
    TermsFrame(p, q, s.active);
    PostingsFrame(p, s, q, s);
    JournalBlocks(p, s);
    JournalFrame(p, s, q);
    BucketsFrame(p, q, s.buckets);
  }

  lemma ZeroOk(b: nat)
    requires b > 0
    ensures PageOk(b, Zero)
  {
  }

  lemma ActiveBlocks(p: Pages, s: Shape)
    requires TermsOk(p, s.active)
    ensures forall t, i | t in s.active && 0 <= i < |s.active[t]| ::
              s.active[t][i] < |p| && p[s.active[t][i]].Posting? && p[s.active[t][i]].term == t
  {
    forall t, i | t in s.active && 0 <= i < |s.active[t]|
      ensures PostingOf(p, t, s.active[t][i])
    {
      assert TermOk(p, t, s.active[t]);
    }
  }

  lemma JournalBlocks(p: Pages, s: Shape)
    requires 0 < |p| && p[0].Meta? && JournalOk(p, s)
    ensures forall i | 0 <= i < |s.journal| ::
              s.journal[i] < |p| && p[s.journal[i]].Posting? && p[s.journal[i]].term == p[s.journal[0]].term
  {
  }

  // ----- reclaiming the first journal page -----

  function Reclaimed(p: Pages): (q: Pages)
    requires 0 < |p| && p[0].Meta? && p[0].journal.Journal?
    requires 0 < p[0].journal.head < |p| && p[p[0].journal.head].Posting?
    ensures |q| == |p|
  {
    var m := p[0];
    var b := m.journal.head;
    var j := if b == m.journal.tail then NoJournal else m.journal.(head := p[b].next);
    p[0 := m.(free := b, journal := j)][b := Free(m.free)]
  }

  ghost function ReclaimedShape(s: Shape): Shape
    requires s.journal != []
  {
    s.(journal := s.journal[1..], free := [s.journal[0]] + s.free)
  }

  ghost predicate Reclaimable(p: Pages, s: Shape) {
    && 0 < |p| && p[0].Meta? && p[0].journal.Journal?
    && s.journal != []
    && p[0].journal.head == s.journal[0]
    && 0 < s.journal[0] < |p| && p[s.journal[0]].Posting?
  }

  lemma ReclaimKeepsGood(p: Pages, s: Shape)
    requires Good(p, s) && s.journal != []
    ensures Reclaimable(p, s)
    ensures Good(Reclaimed(p), ReclaimedShape(s))
    ensures OwnersKept(p, Reclaimed(p)) && DictionariesKept(p, Reclaimed(p))
    ensures ChainsKept(p, Reclaimed(p), s.active)
  {
    hide TermsOk, PostingsOk, BucketsOk, PagesOk, FreeOk, JournalOk, OwnersKept, DictionariesKept, ChainsKept;
    ReclaimReady(p, s);
    ReclaimFrame(p, s);
    ReclaimKeepsActive(p, s);
    TermsFrame(p, Reclaimed(p), s.active);
    ReclaimKeepsPostings(p, s);
    ReclaimKeepsFree(p, s);
    ReclaimKeepsJournal(p, s);
    BucketsFrame(p, Reclaimed(p), s.buckets);
  }

  lemma ReclaimReady(p: Pages, s: Shape)
    requires 0 < |p| <= NO_BLOCK && p[0].Meta? && s.journal != []
    requires JournalOk(p, s)
    ensures Reclaimable(p, s) && s.journal[0] < NO_BLOCK
  {
  }

  lemma ReclaimFrame(p: Pages, s: Shape)
    requires Reclaimable(p, s)
    requires PagesOk(p) && FreeOk(p, s.free) && |p| <= NO_BLOCK
    ensures PagesOk(Reclaimed(p))
    ensures OwnersKept(p, Reclaimed(p)) && DictionariesKept(p, Reclaimed(p))
  {
    var b := s.journal[0];
    assert PageOk(0, p[0]);
    assert PageOk(b, Free(p[0].free)) by {
      assert s.free != [] ==> p[s.free[0]].Free?;
    }
  }

  lemma ReclaimKeepsActive(p: Pages, s: Shape)
    requires Reclaimable(p, s) && JournalOk(p, s)
    requires TermsOk(p, s.active)
    ensures ChainsKept(p, Reclaimed(p), s.active)
  {
    hide TermsOk, PostChain, Sorted;
    ActiveBlocks(p, s);
    forall t, i | t in s.active && 0 <= i < |s.active[t]|
      ensures Reclaimed(p)[s.active[t][i]] == p[s.active[t][i]]
    {
      assert s.journal[0] in s.journal;
    }
  }

  lemma ReclaimKeepsPostings(p: Pages, s: Shape)
    requires Reclaimable(p, s)
    requires PostingsOk(p, s)
    requires OwnersKept(p, Reclaimed(p))
    ensures PostingsOk(Reclaimed(p), ReclaimedShape(s))
  {
    var q := Reclaimed(p);
    var s' := ReclaimedShape(s);
    forall c | 0 <= c < |q| && q[c].Posting? && Placed(s, p[c].term, c)
      ensures Placed(s', p[c].term, c)
    {
      if c in s.journal {
        var i :| 0 <= i < |s.journal| && s.journal[i] == c;
        assert i > 0 && c == s.journal[1..][i - 1];
      }
    }
    PostingsFrame(p, s, q, s');
  }

  lemma ReclaimKeepsFree(p: Pages, s: Shape)
    requires Reclaimable(p, s) && FreeOk(p, s.free)
    ensures FreeOk(Reclaimed(p), ReclaimedShape(s).free)
  {
    var b := s.journal[0];
    var q := Reclaimed(p);
    var free := [b] + s.free;
    assert forall i | 0 <= i < |s.free| :: s.free[i] != b && s.free[i] != 0;
    forall i {:trigger NextIn(free, i)} | 0 <= i < |free|
      ensures q[free[i]].next == NextIn(free, i)
    {
      if i > 0 {
        assert p[s.free[i - 1]].next == NextIn(s.free, i - 1);
      }
    }
  }

  lemma ReclaimKeepsJournal(p: Pages, s: Shape)
    requires Reclaimable(p, s) && JournalOk(p, s)
    ensures JournalOk(Reclaimed(p), ReclaimedShape(s))
  {
    hide PostChain, Sorted;
    var b := s.journal[0];
    var q := Reclaimed(p);
    var rest := s.journal[1..];
    assert s.journal == [b] + rest;
    JournalLinks(p, p[b].term, s.journal);
    if rest != [] {
      SuffixChain(p, p[b].term, s.journal, 1);
      ChainFrame(p, q, p[b].term, rest);
      AllRefsAppend(p, [b], rest);
      SortedParts(AllRefs(p, [b]), AllRefs(p, rest));
    }
  }

  lemma JournalLinks(p: Pages, t: TermRef, bs: seq<nat>)
    requires PostChain(p, t, bs) && bs != []
    ensures forall i | 0 <= i < |bs| :: bs[i] < |p| && p[bs[i]].Posting? && p[bs[i]].term == t
    ensures forall i | 0 < i < |bs| :: bs[i] != bs[0]
    ensures p[bs[0]].next == if |bs| == 1 then NO_BLOCK else bs[1]
    ensures p[TailOf(bs)].next == NO_BLOCK
  {
    assert p[bs[0]].next == NextIn(bs, 0);
    assert p[bs[|bs| - 1]].next == NextIn(bs, |bs| - 1);
  }

  /** A chain whose pages are the same keeps its links and its contents. */
  lemma ChainFrame(p: Pages, q: Pages, t: TermRef, bs: seq<nat>)
    requires PostChain(p, t, bs)
    requires forall i | 0 <= i < |bs| :: bs[i] < |q| && q[bs[i]] == p[bs[i]]
    ensures PostChain(q, t, bs)
    ensures AllRefs(q, bs) == AllRefs(p, bs)
  {
    AllRefsFrame(p, q, bs);
  }

  lemma SuffixChain(p: Pages, t: TermRef, bs: seq<nat>, k: nat)
    requires PostChain(p, t, bs) && k <= |bs|
    ensures PostChain(p, t, bs[k..])
  {
    var rest := bs[k..];
    forall i {:trigger NextIn(rest, i)} | 0 <= i < |rest|
      ensures p[rest[i]].next == NextIn(rest, i)
    {
      assert p[bs[k + i]].next == NextIn(bs, k + i);
    }
  }

  lemma SortedParts(a: seq<OwnerRef>, b: seq<OwnerRef>)
    requires Sorted(a + b)
    ensures Sorted(a) && Sorted(b)
  {
    forall i, j | 0 <= i < j < |b|
      ensures Before(b[i], b[j])
    {
      assert Before((a + b)[|a| + i], (a + b)[|a| + j]);
    }
    forall i, j | 0 <= i < j < |a|
      ensures Before(a[i], a[j])
    {
      assert Before((a + b)[i], (a + b)[j]);
    }
  }

  // ----- storing one output page under the journal -----

  /** The free list after block `b` was taken from its front or by extension. */
  function FreeAfter(p: Pages, b: nat): nat
    requires 0 < |p| && p[0].Meta? && b < |p|
  {
    if p[b].Free? then p[b].next else p[0].free
  }

  function Stored(p: Pages, b: nat, page: Page): (q: Pages)
    requires 0 < |p| && p[0].Meta? && 0 < b < |p|
    requires p[0].journal.Journal? ==> p[0].journal.tail < |p| && p[p[0].journal.tail].Posting?
    ensures |q| == |p|
  {
    var m := p[0].(free := FreeAfter(p, b));
    if m.journal.NoJournal? then p[0 := m.(journal := Journal(b, b, Building))][b := page]
    else
      var last := m.journal.tail;
      p[0 := m.(journal := m.journal.(tail := b))][last := Relinked(p[last], b)][b := page]
  }

  ghost function StoredShape(p: Pages, s: Shape, b: nat): Shape
    requires b < |p| && (p[b].Free? ==> s.free != [])
  {
    s.(journal := s.journal + [b], free := if p[b].Free? then s.free[1..] else s.free)
  }

  /** Block `b` is reserved: the front of the free list, or a fresh extension. */
  ghost predicate Reserved(p: Pages, s: Shape, b: nat) {
    && 0 < b < |p|
    && (p[b].Zero? || (p[b].Free? && s.free != [] && s.free[0] == b))
  }

  /** `page` may become the next output page of the journal, at block `b`. */
  ghost predicate Storable(p: Pages, s: Shape, b: nat, page: Page) {
    && Reserved(p, s, b)
    && page.Posting? && PageOk(b, page) && page.next == NO_BLOCK
    && page.term in s.active
    && (forall i | 0 <= i < |page.refs| :: Resolves(p, page.refs[i]))
    && (page.kind == Direct ==>
          |page.roots| == |page.refs|
          && forall i | 0 <= i < |page.refs| :: page.roots[i] == RootOf(p, page.refs[i]))
    && (s.journal != [] ==> s.journal[0] < |p| && p[s.journal[0]].Posting? && p[s.journal[0]].term == page.term)
    && Sorted(AllRefsOf(p, s.journal) + page.refs)
  }

  /** The facts about the journal's last page that storing relies on. */
  ghost predicate TailReady(p: Pages, s: Shape) {
    && 0 < |p| && p[0].Meta?
    && (p[0].journal.NoJournal? <==> s.journal == [])
    && (p[0].journal.Journal? ==>
          && p[0].journal.tail == TailOf(s.journal)
          && 0 < p[0].journal.tail < |p|
          && p[p[0].journal.tail].Posting?
          && p[p[0].journal.tail].next == NO_BLOCK
          && p[p[0].journal.tail].term in s.active
          && p[0].journal.tail !in s.active[p[p[0].journal.tail].term])
  }

  lemma StoreKeepsGood(p: Pages, s: Shape, b: nat, page: Page)
    requires Good(p, s) && Storable(p, s, b, page)
    ensures TailReady(p, s)
    ensures Good(Stored(p, b, page), StoredShape(p, s, b))
    ensures OwnersKept(p, Stored(p, b, page)) && DictionariesKept(p, Stored(p, b, page))
    ensures ChainsKept(p, Stored(p, b, page), s.active)
    ensures AllRefsOf(Stored(p, b, page), s.journal + [b]) == AllRefsOf(p, s.journal) + page.refs
  {
    hide TermsOk, PostingsOk, BucketsOk, PagesOk, FreeOk, JournalOk, OwnersKept, DictionariesKept, ChainsKept, Storable;
    StoreReady(p, s);
    StoreFrame(p, s, b, page);
    StoreKeepsActive(p, s, b, page);
    TermsFrame(p, Stored(p, b, page), s.active);
    StoreKeepsPostings(p, s, b, page);
    StoreKeepsFree(p, s, b, page);
    StoreKeepsJournal(p, s, b, page);
    BucketsFrame(p, Stored(p, b, page), s.buckets);
  }

  lemma StoreReady(p: Pages, s: Shape)
    requires 0 < |p| <= NO_BLOCK && p[0].Meta? && JournalOk(p, s)
    ensures TailReady(p, s)
  {
    if s.journal != [] {
      JournalLinks(p, p[s.journal[0]].term, s.journal);
      assert TailOf(s.journal) in s.journal;
    }
  }

  lemma StoreFrame(p: Pages, s: Shape, b: nat, page: Page)
    requires TailReady(p, s) && Storable(p, s, b, page)
    requires PagesOk(p) && |p| <= NO_BLOCK
    ensures PagesOk(Stored(p, b, page))
    ensures OwnersKept(p, Stored(p, b, page)) && DictionariesKept(p, Stored(p, b, page))
    ensures Stored(p, b, page)[0].Meta? && Stored(p, b, page)[0].buckets == p[0].buckets
    ensures 0 < b < |p| && (p[b].Free? ==> s.free != [])
  {
    hide Sorted, Resolves;
    assert PageOk(0, p[0]);
    if p[0].journal.Journal? {
      assert PageOk(p[0].journal.tail, p[p[0].journal.tail]);
    }
  }

  lemma StoreKeepsActive(p: Pages, s: Shape, b: nat, page: Page)
    requires TailReady(p, s) && Storable(p, s, b, page)
    requires TermsOk(p, s.active)
    ensures ChainsKept(p, Stored(p, b, page), s.active)
  {
    hide TermsOk, Sorted, Resolves, PageOk;
    ActiveBlocks(p, s);
    var q := Stored(p, b, page);
    forall t, i | t in s.active && 0 <= i < |s.active[t]|
      ensures s.active[t][i] < |p| && q[s.active[t][i]] == p[s.active[t][i]]
    {
      assert s.active[t][i] in s.active[t];
    }
  }

  lemma StoreKeepsPostings(p: Pages, s: Shape, b: nat, page: Page)
    requires TailReady(p, s) && Storable(p, s, b, page)
    requires PostingsOk(p, s)
    requires OwnersKept(p, Stored(p, b, page))
    ensures PostingsOk(Stored(p, b, page), StoredShape(p, s, b))
  {
    hide Sorted, PageOk, AllRefs, AllRefsOf, OwnersKept, PostingsOk;
    var q := Stored(p, b, page);
    var s' := StoredShape(p, s, b);
    assert PostingOk(q, s', b) by {
      assert q[b] == page;
      assert b in s'.journal;
      forall i | 0 <= i < |page.refs|
        ensures Resolves(q, page.refs[i]) && RootOf(q, page.refs[i]) == RootOf(p, page.refs[i])
      {
        OwnersDecide(p, q, page.refs[i]);
      }
    }
    PostingsFrame(p, s, q, s');
  }

  lemma StoreKeepsFree(p: Pages, s: Shape, b: nat, page: Page)
    requires TailReady(p, s) && Storable(p, s, b, page)
    requires FreeOk(p, s.free)
    ensures FreeOk(Stored(p, b, page), StoredShape(p, s, b).free)
  {
    hide Sorted, Resolves, PageOk, FreeChain, Stored;
    var q := Stored(p, b, page);
    var free := StoredShape(p, s, b).free;
    if p[b].Free? {
      FreeRest(p, s.free);
    }
    FreeBlocks(p, free);
    StoredOthers(p, b, page);
    assert b !in free;
    FreeFrame(p, q, free);
  }

  /** Only the metapage, the new page and the page linked to it change. */
  lemma StoredOthers(p: Pages, b: nat, page: Page)
    requires 0 < |p| && p[0].Meta? && 0 < b < |p| && page.Posting?
    requires p[0].journal.Journal? ==> 0 < p[0].journal.tail < |p| && p[p[0].journal.tail].Posting?
    ensures var q := Stored(p, b, page);
            && q[0].Meta? && q[0].free == FreeAfter(p, b) && q[b] == page
            && (forall x | 0 < x < |p| && x != b && p[x].Free? :: q[x] == p[x])
            && forall x | 0 <= x < |q| && q[x].Free? :: x != b && p[x].Free?
  {
  }

  lemma FreeBlocks(p: Pages, bs: seq<nat>)
    requires FreeChain(p, bs)
    ensures forall i | 0 <= i < |bs| :: bs[i] < |p| && p[bs[i]].Free?
  {
  }

  lemma FreeFrame(p: Pages, q: Pages, bs: seq<nat>)
    requires FreeChain(p, bs)
    requires forall i | 0 <= i < |bs| :: bs[i] < |q| && q[bs[i]] == p[bs[i]]
    ensures FreeChain(q, bs)
  {
  }

  lemma FreeRest(p: Pages, bs: seq<nat>)
    requires FreeChain(p, bs) && bs != []
    ensures FreeChain(p, bs[1..])
    ensures forall x | x in bs :: x == bs[0] || x in bs[1..]
    ensures bs[0] !in bs[1..]
    ensures p[bs[0]].next == HeadOf(bs[1..])
  {
    var rest := bs[1..];
    assert p[bs[0]].next == NextIn(bs, 0);
    forall i {:trigger NextIn(rest, i)} | 0 <= i < |rest|
      ensures p[rest[i]].next == NextIn(rest, i)
    {
      assert p[bs[i + 1]].next == NextIn(bs, i + 1);
    }
  }

  lemma StoreKeepsJournal(p: Pages, s: Shape, b: nat, page: Page)
    requires TailReady(p, s) && Storable(p, s, b, page)
    requires TermsOk(p, s.active) && JournalOk(p, s)
    ensures JournalOk(Stored(p, b, page), StoredShape(p, s, b))
    ensures AllRefsOf(Stored(p, b, page), s.journal + [b]) == AllRefsOf(p, s.journal) + page.refs
  {
    hide TermsOk, Sorted, Resolves, PostChain, AllRefs, AllRefsOf, PageOk, Stored;
    var q := Stored(p, b, page);
    StoredChain(p, s, b, page);
    StoredRefs(p, q, page.term, s.journal, b, page);
    StoredMeta(p, b, page);
    StoredSorted(p, q, page.term, s.journal, b, page.refs);
  }

  /** The journal's chain with the new page behind it, apart from the active chain. */
  lemma StoredChain(p: Pages, s: Shape, b: nat, page: Page)
    requires TailReady(p, s) && Storable(p, s, b, page)
    requires TermsOk(p, s.active) && JournalOk(p, s)
    ensures var q := Stored(p, b, page);
            && q[b] == page && PostChain(q, page.term, s.journal + [b])
            && (forall i | 0 <= i < |s.journal| ::
                  && s.journal[i] < |p| && p[s.journal[i]].Posting?
                  && q[s.journal[i]].Posting? && q[s.journal[i]].refs == p[s.journal[i]].refs)
            && forall x | x in s.journal + [b] :: x !in s.active[page.term]
  {
    hide TermsOk, Sorted, Resolves, AllRefs, AllRefsOf, PageOk;
    var q := Stored(p, b, page);
    ActiveBlocks(p, s);
    assert b !in s.active[page.term];
    if s.journal != [] {
      assert b !in s.journal;
      ExtendChain(p, q, page.term, s.journal, b);
    }
  }

  lemma StoredMeta(p: Pages, b: nat, page: Page)
    requires 0 < |p| && p[0].Meta? && 0 < b < |p|
    requires p[0].journal.Journal? ==> 0 < p[0].journal.tail < |p| && p[p[0].journal.tail].Posting?
    ensures var q := Stored(p, b, page);
            && q[0].Meta?
            && q[0].journal == if p[0].journal.Journal? then p[0].journal.(tail := b) else Journal(b, b, Building)
  {
  }

  lemma StoredRefs(p: Pages, q: Pages, t: TermRef, journal: seq<nat>, b: nat, page: Page)
    requires PostChain(q, t, journal + [b]) && page.Posting? && b < |q| && q[b] == page
    requires forall i | 0 <= i < |journal| ::
               && journal[i] < |p| && p[journal[i]].Posting?
               && journal[i] < |q| && q[journal[i]].Posting? && q[journal[i]].refs == p[journal[i]].refs
    ensures AllRefsOf(q, journal + [b]) == AllRefsOf(p, journal) + page.refs
  {
    hide PostChain;
    AllRefsFrame(p, q, journal);
    assert (journal + [b])[..|journal|] == journal;
  }

  lemma StoredSorted(p: Pages, q: Pages, t: TermRef, journal: seq<nat>, b: nat, refs: seq<OwnerRef>)
    requires PostChain(q, t, journal + [b])
    requires Sorted(AllRefsOf(p, journal) + refs) && AllRefsOf(q, journal + [b]) == AllRefsOf(p, journal) + refs
    ensures forall i | 0 <= i < |journal + [b]| :: (journal + [b])[i] < |q| && q[(journal + [b])[i]].Posting?
    ensures Sorted(AllRefs(q, journal + [b])) && q[(journal + [b])[0]].term == t
  {
    hide Sorted, AllRefs;
  }

  /** Linking a new terminal page behind the tail makes a longer chain. */
  lemma ExtendChain(p: Pages, q: Pages, t: TermRef, bs: seq<nat>, b: nat)
    requires PostChain(p, t, bs) && bs != [] && b !in bs
    requires |p| == |q| && PostingOf(q, t, b) && q[b].next == NO_BLOCK
    requires forall i | 0 <= i < |bs| - 1 :: q[bs[i]] == p[bs[i]]
    requires q[TailOf(bs)] == Relinked(p[TailOf(bs)], b)
    ensures PostChain(q, t, bs + [b])
    ensures forall i | 0 <= i < |bs| :: q[bs[i]].Posting? && q[bs[i]].refs == p[bs[i]].refs
  {
    var cs := bs + [b];
    forall i {:trigger NextIn(cs, i)} | 0 <= i < |cs|
      ensures q[cs[i]].next == NextIn(cs, i)
    {
      if i < |bs| - 1 {
        assert p[bs[i]].next == NextIn(bs, i);
      }
    }
  }

  // ----- publishing a replacement -----

  /** The chain a term has once its pages from position `k` on are replaced by `output`. */
  ghost function Spliced(bs: seq<nat>, k: nat, output: seq<nat>): seq<nat>
    requires k <= |bs|
  {
    bs[..k] + output
  }

  function WithChain(page: Page, index: nat, head: nat, tail: nat): Page
    requires page.Dictionary? && index < |page.entries|
  {
    Dictionary(page.entries[index := page.entries[index].(head := head, tail := tail)], page.next)
  }

  /**
   One batch: the metapage records the replaced pages as retiring, the dictionary entry
   names the new ends, and the last retained page, if any, links to the output.
   */
  function Published(p: Pages, t: TermRef, head: nat, tail: nat, retired: Journal, boundary: nat, link: nat): (q: Pages)
    requires 0 < |p| && p[0].Meta? && IsTerm(p, t)
    requires boundary != NO_BLOCK ==> boundary < |p| && p[boundary].Posting?
    ensures |q| == |p|
  {
    var q := p[0 := p[0].(journal := retired)][t.page := WithChain(p[t.page], t.index, head, tail)];
    if boundary == NO_BLOCK then q else q[boundary := Relinked(p[boundary], link)]
  }

  ghost function PublishedShape(s: Shape, t: TermRef, k: nat): Shape
    requires t in s.active && k <= |s.active[t]|
  {
    s.(active := s.active[t := Spliced(s.active[t], k, s.journal)], journal := s.active[t][k..])
  }

  ghost function PublishedPages(p: Pages, s: Shape, t: TermRef, k: nat): (q: Pages)
    requires 0 < |p| <= NO_BLOCK && p[0].Meta? && t in s.active && k < |s.active[t]| && TermOk(p, t, s.active[t])
    ensures |q| == |p|
  {
    var bs := s.active[t];
    var chain := Spliced(bs, k, s.journal);
    JournalLinks(p, t, bs);
    Published(p, t, HeadOf(chain), TailOf(chain), Journal(bs[k], TailOf(bs), Retiring),
              if k == 0 then NO_BLOCK else bs[k - 1], HeadOf(s.journal))
  }

  /** The output recorded by the journal may replace the pages of `t` from `k` on. */
  ghost predicate Publishable(p: Pages, s: Shape, t: TermRef, k: nat) {
    && t in s.active && k < |s.active[t]| && TermOk(p, t, s.active[t])
    && (s.journal != [] ==> s.journal[0] < |p| && p[s.journal[0]].Posting? && p[s.journal[0]].term == t)
    && Sorted([EntryOf(p, t).first] + AllRefsOf(p, s.active[t][..k]) + AllRefsOf(p, s.journal))
  }

  /** Every dictionary page is the same, except the ends of one entry. */
  ghost predicate OneEntryMoved(p: Pages, q: Pages, t: TermRef) {
    && |p| <= |q|
    && IsTerm(p, t) && IsTerm(q, t)
    && q[t.page] == WithChain(p[t.page], t.index, EntryOf(q, t).head, EntryOf(q, t).tail)
    && (forall b | 0 <= b < |p| && p[b].Dictionary? && b != t.page :: q[b] == p[b])
    && (forall b | 0 <= b < |q| && q[b].Dictionary? :: b < |p| && p[b].Dictionary?)
  }

  lemma PublishKeepsGood(p: Pages, s: Shape, t: TermRef, k: nat)
    requires Good(p, s) && Publishable(p, s, t, k)
    ensures Good(PublishedPages(p, s, t, k), PublishedShape(s, t, k))
    ensures OwnersKept(p, PublishedPages(p, s, t, k)) && OneEntryMoved(p, PublishedPages(p, s, t, k), t)
    ensures ChainsKept(p, PublishedPages(p, s, t, k), s.active - {t})
    ensures AllRefsOf(PublishedPages(p, s, t, k), Spliced(s.active[t], k, s.journal))
              == AllRefsOf(p, s.active[t][..k]) + AllRefsOf(p, s.journal)
  {
    hide TermsOk, PostingsOk, BucketsOk, PagesOk, FreeOk, JournalOk, OwnersKept, OneEntryMoved, ChainsKept, TermOk;
    PublishFrame(p, s, t, k);
    PublishKeepsOthers(p, s, t, k);
    PublishMovesTerm(p, s, t, k);
    PublishKeepsTerms(p, s, t, k);
    PublishKeepsPostings(p, s, t, k);
    PublishKeepsFree(p, s, t, k);
    PublishKeepsJournal(p, s, t, k);
    PublishKeepsBuckets(p, s, t, k);
  }

  lemma PublishFrame(p: Pages, s: Shape, t: TermRef, k: nat)
    requires 0 < |p| <= NO_BLOCK && p[0].Meta? && PagesOk(p) && JournalOk(p, s) && Publishable(p, s, t, k)
    ensures var q := PublishedPages(p, s, t, k);
            && q[0].Meta? && q[0].buckets == p[0].buckets && q[0].free == p[0].free
            && PagesOk(q) && OwnersKept(p, q) && OneEntryMoved(p, q, t)
  {
    hide Sorted, PostChain, PageOk, PagesOk, AllRefs, AllRefsOf, Spliced, JournalOk, PublishedPages, OwnersKept,
        OneEntryMoved;
    PublishOwners(p, s, t, k);
    PublishPagesOk(p, s, t, k);
  }

  /** Owner pages stay, and of the dictionary only one entry's ends change. */
  lemma PublishOwners(p: Pages, s: Shape, t: TermRef, k: nat)
    requires 0 < |p| <= NO_BLOCK && p[0].Meta? && Publishable(p, s, t, k)
    ensures var q := PublishedPages(p, s, t, k);
            && q[0].Meta? && q[0].buckets == p[0].buckets && q[0].free == p[0].free
            && OwnersKept(p, q) && OneEntryMoved(p, q, t)
  {
    hide Sorted, PostChain, PageOk, AllRefs, AllRefsOf, Spliced;
    JournalLinks(p, t, s.active[t]);
  }

  lemma PublishPagesOk(p: Pages, s: Shape, t: TermRef, k: nat)
    requires 0 < |p| <= NO_BLOCK && p[0].Meta? && PagesOk(p) && JournalOk(p, s) && Publishable(p, s, t, k)
    ensures PagesOk(PublishedPages(p, s, t, k))
  {
    hide Sorted, PostChain, AllRefs, AllRefsOf;
    var bs := s.active[t];
    JournalLinks(p, t, bs);
    assert PageOk(0, p[0]) && PageOk(t.page, p[t.page]);
    if k > 0 {
      assert PageOk(bs[k - 1], p[bs[k - 1]]);
      if s.journal != [] {
        assert bs[k - 1] in s.active[t];
      }
    }
  }

  lemma PublishKeepsOthers(p: Pages, s: Shape, t: TermRef, k: nat)
    requires 0 < |p| <= NO_BLOCK && p[0].Meta? && TermsOk(p, s.active) && Publishable(p, s, t, k)
    ensures ChainsKept(p, PublishedPages(p, s, t, k), s.active - {t})
  {
    hide TermsOk, Sorted, PostChain;
    ActiveBlocks(p, s);
  }

  /** What the published batch does to the pages of the two chains involved. */
  lemma PublishEffect(p: Pages, s: Shape, t: TermRef, k: nat)
    requires 0 < |p| <= NO_BLOCK && p[0].Meta? && JournalOk(p, s) && Publishable(p, s, t, k)
    ensures PostChain(p, t, s.active[t]) && PostChain(p, t, s.journal)
    ensures forall x | x in s.journal :: x !in s.active[t]
    ensures var q := PublishedPages(p, s, t, k);
            var bs := s.active[t];
            && (forall i | 0 <= i < |bs| && i != k - 1 :: q[bs[i]] == p[bs[i]])
            && (k > 0 ==> q[bs[k - 1]] == Relinked(p[bs[k - 1]], HeadOf(s.journal)))
            && (forall i | 0 <= i < |s.journal| :: q[s.journal[i]] == p[s.journal[i]])
            && q[0] == p[0].(journal := Journal(bs[k], TailOf(bs), Retiring))
            && IsTerm(q, t)
            && EntryOf(q, t) == EntryOf(p, t).(head := HeadOf(Spliced(bs, k, s.journal)),
                 tail := TailOf(Spliced(bs, k, s.journal)))
  {
    hide Sorted, AllRefs, AllRefsOf, PostChain, JournalOk;
    EffectChains(p, s, t, k);
    var bs := s.active[t];
    JournalLinks(p, t, bs);
    ChainBlocks(p, t, s.journal);
    assert forall i | 0 <= i < |s.journal| :: s.journal[i] in s.journal;
    assert forall i | 0 <= i < |bs| :: bs[i] in bs;
    DistinctAt(bs, k);
  }

  lemma DistinctAt(bs: seq<nat>, k: nat)
    requires NoDuplicates(bs)
    ensures forall i | 0 <= i < |bs| && 0 < k <= |bs| && i != k - 1 :: bs[i] != bs[k - 1]
  {
  }

  lemma EffectChains(p: Pages, s: Shape, t: TermRef, k: nat)
    requires 0 < |p| <= NO_BLOCK && p[0].Meta? && JournalOk(p, s) && Publishable(p, s, t, k)
    ensures PostChain(p, t, s.active[t]) && PostChain(p, t, s.journal)
    ensures forall x | x in s.journal :: x !in s.active[t]
    ensures NoDuplicates(s.active[t])
  {
    hide Sorted, AllRefs, AllRefsOf;
  }

  /** The spliced chain is linked, terminal and free of repeats. */
  lemma PublishMovesTerm(p: Pages, s: Shape, t: TermRef, k: nat)
    requires 0 < |p| <= NO_BLOCK && p[0].Meta? && JournalOk(p, s) && Publishable(p, s, t, k)
    ensures TermOk(PublishedPages(p, s, t, k), t, Spliced(s.active[t], k, s.journal))
    ensures AllRefsOf(PublishedPages(p, s, t, k), Spliced(s.active[t], k, s.journal))
              == AllRefsOf(p, s.active[t][..k]) + AllRefsOf(p, s.journal)
  {
    hide Sorted, PublishedPages, PostChain, JournalOk, AllRefs;
    PublishEffect(p, s, t, k);
    var bs := s.active[t];
    var q := PublishedPages(p, s, t, k);
    JournalLinks(p, t, bs);
    SpliceChain(p, q, t, bs, k, s.journal);
    SpliceRefs(p, q, t, bs, k, s.journal);
    assert [EntryOf(q, t).first] + (AllRefsOf(p, bs[..k]) + AllRefsOf(p, s.journal))
        == [EntryOf(p, t).first] + AllRefsOf(p, bs[..k]) + AllRefsOf(p, s.journal);
  }

  lemma SpliceRefs(p: Pages, q: Pages, t: TermRef, bs: seq<nat>, k: nat, output: seq<nat>)
    requires PostChain(p, t, bs) && PostChain(p, t, output) && k < |bs|
    requires |p| == |q|
    requires forall i | 0 <= i < |bs| && i != k - 1 :: q[bs[i]] == p[bs[i]]
    requires k > 0 ==> q[bs[k - 1]] == Relinked(p[bs[k - 1]], HeadOf(output))
    requires forall i | 0 <= i < |output| :: q[output[i]] == p[output[i]]
    requires PostChain(q, t, bs[..k] + output)
    ensures AllRefsOf(q, bs[..k] + output) == AllRefsOf(p, bs[..k]) + AllRefsOf(p, output)
    ensures AllRefsOf(q, bs[..k] + output) == AllRefs(q, bs[..k] + output)
  {
    hide HeadOf, PostChain, AllRefs;
    ChainBlocks(p, t, bs);
    ChainBlocks(p, t, output);
    ChainBlocks(q, t, bs[..k] + output);
    var kept := bs[..k];
    assert forall i | 0 <= i < k :: kept[i] == bs[i];
    AllRefsFrame(p, q, kept);
    AllRefsFrame(p, q, output);
    AllRefsAppend(q, kept, output);
  }

  lemma ChainBlocks(p: Pages, t: TermRef, bs: seq<nat>)
    requires PostChain(p, t, bs)
    ensures forall i | 0 <= i < |bs| :: bs[i] < |p| && p[bs[i]].Posting?
  {
  }

  lemma SpliceChain(p: Pages, q: Pages, t: TermRef, bs: seq<nat>, k: nat, output: seq<nat>)
    requires PostChain(p, t, bs) && PostChain(p, t, output) && k < |bs|
    requires forall x | x in output :: x !in bs
    requires |p| == |q|
    requires forall i | 0 <= i < k - 1 :: q[bs[i]] == p[bs[i]]
    requires k > 0 ==> q[bs[k - 1]] == Relinked(p[bs[k - 1]], HeadOf(output))
    requires forall i | 0 <= i < |output| :: q[output[i]] == p[output[i]]
    ensures PostChain(q, t, bs[..k] + output)
  {
    var cs := bs[..k] + output;
    forall i {:trigger NextIn(cs, i)} | 0 <= i < |cs|
      ensures q[cs[i]].next == NextIn(cs, i)
    {
      if i < k - 1 {
        assert p[bs[i]].next == NextIn(bs, i);
      } else if i >= k {
        assert p[output[i - k]].next == NextIn(output, i - k);
      }
    }
    forall i, j | 0 <= i < j < |cs|
      ensures cs[i] != cs[j]
    {
      if i < k <= j {
        assert cs[j] in output && cs[i] in bs;
      }
    }
  }

  lemma PublishKeepsTerms(p: Pages, s: Shape, t: TermRef, k: nat)
    requires 0 < |p| <= NO_BLOCK && p[0].Meta? && TermsOk(p, s.active) && Publishable(p, s, t, k)
    requires ChainsKept(p, PublishedPages(p, s, t, k), s.active - {t})
    requires OneEntryMoved(p, PublishedPages(p, s, t, k), t)
    requires TermOk(PublishedPages(p, s, t, k), t, Spliced(s.active[t], k, s.journal))
    ensures TermsOk(PublishedPages(p, s, t, k), PublishedShape(s, t, k).active)
  {
    hide PublishedPages, TermOk, OneEntryMoved, Sorted, AllRefsOf, ChainsKept;
    var q := PublishedPages(p, s, t, k);
    var active := PublishedShape(s, t, k).active;
    forall u | u in active
      ensures TermOk(q, u, active[u])
    {
      if u != t {
        OtherTerm(p, q, s.active, t, u);
      }
    }
    forall u | IsTerm(q, u)
      ensures u in active
    {
      MovedEntry(p, q, t, u);
    }
  }

  lemma OtherTerm(p: Pages, q: Pages, active: map<TermRef, seq<nat>>, t: TermRef, u: TermRef)
    requires u in active && u != t && TermOk(p, u, active[u])
    requires ChainsKept(p, q, active - {t}) && OneEntryMoved(p, q, t)
    ensures TermOk(q, u, active[u])
  {
    hide OneEntryMoved, PostChain, Sorted, AllRefs;
    MovedEntry(p, q, t, u);
    assert u in active - {t} && (active - {t})[u] == active[u];
    TermFrame(p, q, u, active[u]);
  }

  lemma MovedEntry(p: Pages, q: Pages, t: TermRef, u: TermRef)
    requires OneEntryMoved(p, q, t)
    ensures IsTerm(p, u) == IsTerm(q, u)
    ensures IsTerm(p, u) && u != t ==> EntryOf(q, u) == EntryOf(p, u)
    ensures EntryOf(q, t).first == EntryOf(p, t).first
  {
  }

  lemma PublishKeepsPostings(p: Pages, s: Shape, t: TermRef, k: nat)
    requires 0 < |p| <= NO_BLOCK && p[0].Meta? && PostingsOk(p, s) && JournalOk(p, s) && Publishable(p, s, t, k)
    requires OwnersKept(p, PublishedPages(p, s, t, k))
    ensures PostingsOk(PublishedPages(p, s, t, k), PublishedShape(s, t, k))
  {
    hide PostingsOk, PostingOk, OwnersKept, Sorted, PostChain, AllRefs, AllRefsOf;
    var bs := s.active[t];
    var q := PublishedPages(p, s, t, k);
    var s' := PublishedShape(s, t, k);
    JournalBlocks(p, s);
    JournalLinks(p, t, bs);
    forall b | 0 <= b < |q| && q[b].Posting?
      ensures p[b].Posting? && Relinked(q[b], p[b].next) == p[b]
      ensures Placed(s, p[b].term, b) ==> Placed(s', p[b].term, b)
    {
      if Placed(s, p[b].term, b) {
        if b in s.journal {
          assert b in s'.active[t];
        } else if p[b].term == t {
          var i :| 0 <= i < |bs| && bs[i] == b;
          if i < k {
            assert s'.active[t][i] == b;
          } else {
            assert s'.journal[i - k] == b;
          }
        }
      }
    }
    PostingsFrame(p, s, q, s');
  }

  lemma PublishKeepsFree(p: Pages, s: Shape, t: TermRef, k: nat)
    requires 0 < |p| <= NO_BLOCK && p[0].Meta? && FreeOk(p, s.free) && Publishable(p, s, t, k)
    requires PublishedPages(p, s, t, k)[0].Meta? && PublishedPages(p, s, t, k)[0].free == p[0].free
    ensures FreeOk(PublishedPages(p, s, t, k), s.free)
  {
    hide FreeChain, Sorted, PostChain, AllRefs, AllRefsOf;
    var q := PublishedPages(p, s, t, k);
    JournalLinks(p, t, s.active[t]);
    FreeBlocks(p, s.free);
    FreeFrame(p, q, s.free);
  }

  lemma PublishKeepsJournal(p: Pages, s: Shape, t: TermRef, k: nat)
    requires 0 < |p| <= NO_BLOCK && p[0].Meta? && JournalOk(p, s) && Publishable(p, s, t, k)
    ensures PublishedPages(p, s, t, k)[0].Meta?
    ensures JournalOk(PublishedPages(p, s, t, k), PublishedShape(s, t, k))
  {
    hide Sorted, PublishedPages, PostChain, AllRefs, Spliced;
    PublishEffect(p, s, t, k);
    var bs := s.active[t];
    var q := PublishedPages(p, s, t, k);
    var rest := bs[k..];
    RestIsDisjoint(p, t, bs, k, s.journal);
    JournalLinks(p, t, bs);
    SuffixChain(p, t, bs, k);
    ChainFrame(p, q, t, rest);
    RestIsSorted(p, t, bs, k);
  }

  lemma RestIsSorted(p: Pages, t: TermRef, bs: seq<nat>, k: nat)
    requires k <= |bs| && TermOk(p, t, bs)
    ensures Sorted(AllRefsOf(p, bs[k..]))
  {
    hide Sorted, AllRefs;
    var rest := bs[k..];
    assert bs == bs[..k] + rest;
    AllRefsAppend(p, bs[..k], rest);
    SortedParts([EntryOf(p, t).first], AllRefs(p, bs));
    SortedParts(AllRefs(p, bs[..k]), AllRefs(p, rest));
  }

  lemma RestIsDisjoint(p: Pages, t: TermRef, bs: seq<nat>, k: nat, output: seq<nat>)
    requires PostChain(p, t, bs) && k < |bs|
    requires forall x | x in output :: x !in bs
    ensures forall x | x in bs[k..] :: x !in Spliced(bs, k, output)
  {
    forall x | x in bs[k..]
      ensures x !in Spliced(bs, k, output)
    {
      var j :| 0 <= j < |bs| - k && bs[k..][j] == x;
      assert x == bs[k + j];
      assert forall i | 0 <= i < k :: bs[i] != bs[k + j];
    }
  }

  lemma PublishKeepsBuckets(p: Pages, s: Shape, t: TermRef, k: nat)
    requires 0 < |p| <= NO_BLOCK && p[0].Meta? && BucketsOk(p, s.buckets) && Publishable(p, s, t, k)
    requires PublishedPages(p, s, t, k)[0].Meta? && PublishedPages(p, s, t, k)[0].buckets == p[0].buckets
    requires OneEntryMoved(p, PublishedPages(p, s, t, k), t)
    ensures BucketsOk(PublishedPages(p, s, t, k), s.buckets)
  {
    hide PublishedPages, OneEntryMoved, TermOk, DictChain, AllRefsOf, Sorted;
    var q := PublishedPages(p, s, t, k);
    forall n | 0 <= n < BUCKETS
      ensures DictChain(q, n, q[0].buckets[n], s.buckets[n])
    {
      assert DictChain(p, n, p[0].buckets[n], s.buckets[n]);
      MovedBucket(p, q, t, n, p[0].buckets[n], s.buckets[n]);
    }
  }

  lemma MovedBucket(p: Pages, q: Pages, t: TermRef, n: nat, ends: (nat, nat), bs: seq<nat>)
    requires OneEntryMoved(p, q, t) && DictChain(p, n, ends, bs)
    ensures DictChain(q, n, ends, bs)
  {
    forall i | 0 <= i < |bs|
      ensures q[bs[i]].Dictionary? && q[bs[i]].next == p[bs[i]].next
      ensures forall e | 0 <= e < |q[bs[i]].entries| :: q[bs[i]].entries[e].bucket == n
    {
      assert p[bs[i]].Dictionary?;
    }
  }
}
