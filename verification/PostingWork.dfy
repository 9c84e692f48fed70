/** The work state of a one-term scan, and what parallel readers of it collect together. */
module PostingWork {
  import opened Outcomes
  import opened FiniteSets
  import opened PostingPages
  import opened WorkClaims
  import opened WorkProgress

  /** A captured chain position; `previous` is the last owner handed out before it. */
  datatype Position = Position(block: nat, tail: nat, remaining: nat, limit: nat, term: TermRef, previous: OwnerRef)

  datatype Work = Done | Inline(at: Position) | Chain(at: Position)

  predicate ValidBlock(b: nat, limit: nat) {
    0 < b < limit
  }

  /** What a private copy of the shared words must satisfy. */
  predicate ValidWork(w: Work) {
    w.Done? || (
      var c := w.at;
      && 0 < c.limit < NO_BLOCK && 0 < c.remaining <= c.limit
      && ((ValidBlock(c.block, c.limit) && ValidBlock(c.tail, c.limit)) ||
           (w.Inline? && c.block == NO_BLOCK && c.tail == NO_BLOCK))
      && ValidBlock(c.term.page, c.limit) && ValidBlock(c.previous.page, c.limit)
      && c.previous.slot <= 0xFFFF && 0 < c.previous.incarnation < 0x1_0000_0000_0000_0000
    )
  }

  /** The owners of one batch: the dictionary's inline reference or one posting page. */
  type OwnerBatch = seq<OwnerRef>

  function LastOf(previous: OwnerRef, refs: seq<OwnerRef>): OwnerRef {
    if refs == [] then previous else refs[|refs| - 1]
  }

  /** The successor of a page position, if the chain and the order allow one. */
  function AfterPage(p: Pages, c: Position): Prepared<Work, OwnerBatch>
    requires c.block < |p| && p[c.block].Posting? && c.remaining > 0
  {
    var page := p[c.block];
    if !Sorted([c.previous] + page.refs) then Corrupt
    else if c.block == c.tail then Batch(Done, page.refs)
    else if page.next == NO_BLOCK || c.remaining == 1 then Corrupt
    else
      var next := Chain(c.(block := page.next, remaining := c.remaining - 1,
          previous := LastOf(c.previous, page.refs)));
      if ValidWork(next) then Batch(next, page.refs) else Corrupt
  }

  function Next(p: Pages, w: Work): Prepared<Work, OwnerBatch> {
    if !ValidWork(w) then Corrupt
    else
      match w
      case Done => Finished
      case Inline(c) => Batch(if c.block == NO_BLOCK then Done else Chain(c), [c.previous])
      case Chain(c) =>
        if c.block < |p| && p[c.block].Posting? && PageOk(c.block, p[c.block]) && p[c.block].term == c.term
            then AfterPage(p, c)
        else Corrupt
  }

  // ----- the preparing loop -----

  lemma BeforeTrans(a: OwnerRef, b: OwnerRef, c: OwnerRef)
    requires Before(a, b) && Before(b, c)
    ensures Before(a, c)
  {
  }

  /** One reference at a time, each compared with the one before it only. */
  method CheckOrder(previous: OwnerRef, refs: seq<OwnerRef>) returns (last: Option<OwnerRef>)
    ensures last == if Sorted([previous] + refs) then Some(LastOf(previous, refs)) else None
  {
    var at := previous;
    var i := 0;
    while i < |refs|
      invariant i <= |refs| && at == LastOf(previous, refs[..i])
      invariant Sorted([previous] + refs[..i])
    {
      ghost var done := [previous] + refs[..i];
      assert done[|done| - 1] == at;
      assert [previous] + refs[..i + 1] == done + [refs[i]];
      if !Before(at, refs[i]) {
        assert ([previous] + refs)[i] == at && ([previous] + refs)[i + 1] == refs[i];
        return None;
      }
      forall k | 0 <= k < |done| ensures Before(done[k], refs[i]) {
        if k < |done| - 1 {
          BeforeTrans(done[k], at, refs[i]);
        }
      }
      at := refs[i];
      i := i + 1;
    }
    assert refs[..i] == refs;
    return Some(at);
  }

  method PrepareNext(p: Pages, w: Work) returns (r: Prepared<Work, OwnerBatch>)
    ensures r == Next(p, w)
  {
    if !ValidWork(w) {
      return Corrupt;
    }
    match w
    case Done =>
      return Finished;
    case Inline(c) =>
      return Batch(if c.block == NO_BLOCK then Done else Chain(c), [c.previous]);
    case Chain(c) =>
      if c.block >= |p| || !p[c.block].Posting? || !PageOk(c.block, p[c.block]) || p[c.block].term != c.term {
        return Corrupt;
      }
      var page := p[c.block];
      var last := CheckOrder(c.previous, page.refs);
      if last.None? {
        return Corrupt;
      }
      var remaining := c.remaining - 1;
      if c.block == c.tail {
        return Batch(Done, page.refs);
      }
      if page.next == NO_BLOCK || remaining == 0 {
        return Corrupt;
      }
      var next := Chain(c.(block := page.next, remaining := remaining, previous := last.value));
      if !ValidWork(next) {
        return Corrupt;
      }
      return Batch(next, page.refs);
  }

  // ----- the batches of a durable term -----

  function Capture(p: Pages, t: TermRef): Work
    requires IsTerm(p, t)
  {
    var e := EntryOf(p, t);
    Inline(Position(e.head, e.tail, |p|, |p|, t, e.first))
  }

  ghost function JobOf(p: Pages, weight: OwnerBatch -> nat): Job<Work, OwnerBatch> {
    Job(w => Next(p, w), weight)
  }

  function PageBatches(p: Pages, bs: seq<nat>): (r: seq<OwnerBatch>)
    requires forall i | 0 <= i < |bs| :: bs[i] < |p| && p[bs[i]].Posting?
    ensures |r| == |bs|
  {
    seq(|bs|, i requires 0 <= i < |bs| => p[bs[i]].refs)
  }

  function Concat(batches: seq<OwnerBatch>): seq<OwnerRef> {
    if batches == [] then [] else Concat(batches[..|batches| - 1]) + batches[|batches| - 1]
  }

  lemma {:induction false} ConcatPages(p: Pages, bs: seq<nat>)
    requires forall i | 0 <= i < |bs| :: bs[i] < |p| && p[bs[i]].Posting?
    ensures Concat(PageBatches(p, bs)) == AllRefs(p, bs)
    decreases |bs|
  {
    if bs != [] {
      ConcatPages(p, bs[..|bs| - 1]);
      assert PageBatches(p, bs)[..|bs| - 1] == PageBatches(p, bs[..|bs| - 1]);
    }
  }

  lemma {:induction false} ConcatCons(first: OwnerBatch, rest: seq<OwnerBatch>)
    ensures Concat([first] + rest) == first + Concat(rest)
    decreases |rest|
  {
    var all := [first] + rest;
    if rest == [] {
      assert all[..0] == [] && all == [first];
    } else {
      ConcatCons(first, rest[..|rest| - 1]);
      assert all[..|all| - 1] == [first] + rest[..|rest| - 1];
    }
  }

  ghost predicate ChainPosition(p: Pages, t: TermRef, bs: seq<nat>, k: nat, c: Position) {
    && k < |bs| && |bs| < |p| < NO_BLOCK && PostChain(p, t, bs)
    && c.block == bs[k] && c.tail == bs[|bs| - 1] && c.limit == |p| && c.term == t
    && |bs| - k <= c.remaining <= |p|
  }

  predicate RefOk(p: Pages, r: OwnerRef) {
    0 < r.page < |p| && r.slot <= 0xFFFF && 0 < r.incarnation < 0x1_0000_0000_0000_0000
  }

  predicate ReadablePage(p: Pages, b: nat) {
    && 0 < b < |p| && p[b].Posting? && PageOk(b, p[b])
    && forall j | 0 <= j < |p[b].refs| :: RefOk(p, p[b].refs[j])
  }

  function Advanced(p: Pages, c: Position): Position
    requires c.block < |p| && p[c.block].Posting? && c.remaining > 0
  {
    c.(block := p[c.block].next, remaining := c.remaining - 1, previous := LastOf(c.previous, p[c.block].refs))
  }

  /** One page of a durable chain: its references, then the next page or the end. */
  lemma ChainStep(p: Pages, t: TermRef, bs: seq<nat>, k: nat, c: Position)
    requires ChainPosition(p, t, bs, k, c) && ValidWork(Chain(c)) && ReadablePage(p, c.block)
    requires k + 1 < |bs| ==> ReadablePage(p, bs[k + 1])
    requires Sorted([c.previous] + p[c.block].refs)
    ensures k + 1 == |bs| ==> Next(p, Chain(c)) == Batch(Done, p[c.block].refs)
    ensures k + 1 < |bs| ==> Next(p, Chain(c)) == Batch(Chain(Advanced(p, c)), p[c.block].refs)
    ensures k + 1 < |bs| ==> ChainPosition(p, t, bs, k + 1, Advanced(p, c)) && ValidWork(Chain(Advanced(p, c)))
  {
    var page := p[bs[k]];
    assert PostingOf(p, t, bs[k]);
    assert page.next == NextIn(bs, k);
    if k + 1 < |bs| {
      assert bs[k] != bs[|bs| - 1];
      assert page.refs != [] ==> RefOk(p, page.refs[|page.refs| - 1]);
    }
  }

  /** Along a durable chain every page yields its references and then the next page. */
  lemma {:induction false} ChainYields(p: Pages, t: TermRef, bs: seq<nat>, k: nat, c: Position,
      weight: OwnerBatch -> nat)
    requires ChainPosition(p, t, bs, k, c) && ValidWork(Chain(c))
    requires forall i | 0 <= i < |bs| :: ReadablePage(p, bs[i])
    requires Sorted([c.previous] + AllRefs(p, bs[k..]))
    ensures Yields(JobOf(p, weight), Chain(c), PageBatches(p, bs[k..]))
    decreases |bs| - k
  {
    hide Next, PostChain, AllRefs, Sorted, ValidWork, PageOk;
    var page := p[bs[k]];
    assert ReadablePage(p, bs[k]);
    var rest := bs[k + 1..];
    assert bs[k..] == [bs[k]] + rest;
    var here := PageBatches(p, bs[k..]);
    assert here[1..] == PageBatches(p, rest);
    HeadRefs(p, bs[k], rest);
    SplitSorted(c.previous, page.refs, AllRefs(p, rest));
    if k + 1 == |bs| {
      ChainStep(p, t, bs, k, c);
      DoneYields(p, weight);
    } else {
      assert ReadablePage(p, bs[k + 1]);
      ChainStep(p, t, bs, k, c);
      ChainYields(p, t, bs, k + 1, Advanced(p, c), weight);
    }
  }

  lemma DoneYields(p: Pages, weight: OwnerBatch -> nat)
    ensures Yields(JobOf(p, weight), Done, [])
  {
  }

  lemma OneRefs(p: Pages, b: nat)
    requires b < |p| && p[b].Posting?
    ensures AllRefs(p, [b]) == p[b].refs
  {
    var none: seq<nat> := [];
    assert [b][..0] == none && AllRefs(p, none) == [];
    assert AllRefs(p, [b]) == AllRefs(p, none) + p[b].refs;
  }

  lemma HeadRefs(p: Pages, b: nat, rest: seq<nat>)
    requires b < |p| && p[b].Posting? && forall i | 0 <= i < |rest| :: rest[i] < |p| && p[rest[i]].Posting?
    ensures AllRefs(p, [b] + rest) == p[b].refs + AllRefs(p, rest)
  {
    hide AllRefs;
    OneRefs(p, b);
    AllRefsAppend(p, [b], rest);
  }

  lemma SplitSorted(first: OwnerRef, a: seq<OwnerRef>, b: seq<OwnerRef>)
    requires Sorted([first] + (a + b))
    ensures Sorted([first] + a) && Sorted([LastOf(first, a)] + b)
  {
    var all := [first] + (a + b);
    assert forall i | 0 <= i < |a| + 1 :: all[i] == ([first] + a)[i];
    assert forall i | 0 <= i < |b| + 1 :: all[|a| + i] == ([LastOf(first, a)] + b)[i];
  }

  /** The batches of a term: its inline owner, then its posting pages in chain order. */
  ghost function TermBatches(p: Pages, s: Shape, t: TermRef): seq<OwnerBatch>
    requires t in s.active && TermOk(p, t, s.active[t])
  {
    [[EntryOf(p, t).first]] + PageBatches(p, s.active[t])
  }

  lemma DurablePage(p: Pages, s: Shape, b: nat)
    requires b < |p| && p[b].Posting? && Good(p, s)
    ensures ReadablePage(p, b)
  {
    hide TermsOk, JournalOk, FreeOk, BucketsOk;
    assert PostingOk(p, s, b);
    assert PageOk(b, p[b]);
    forall j | 0 <= j < |p[b].refs| ensures RefOk(p, p[b].refs[j]) {
      assert Resolves(p, p[b].refs[j]);
    }
  }

  lemma CapturedWorkIsValid(p: Pages, s: Shape, t: TermRef, bs: seq<nat>)
    requires |p| < NO_BLOCK && TermOk(p, t, bs)
    requires Resolves(p, EntryOf(p, t).first)
    requires forall i | 0 <= i < |bs| :: ReadablePage(p, bs[i])
    requires Good(p, s)
    ensures ValidWork(Capture(p, t)) && |bs| < |p|
  {
    hide AllRefs, JournalOk, FreeOk, BucketsOk, TermsOk, PostingsOk;
    assert PageOk(t.page, p[t.page]);
    assert p[0].Meta?;
    ChainIsShort(p, t, bs);
    if bs != [] {
      assert ReadablePage(p, bs[0]) && ReadablePage(p, bs[|bs| - 1]);
    }
  }

  lemma TermYields(p: Pages, s: Shape, t: TermRef, weight: OwnerBatch -> nat)
    requires t in s.active && TermOk(p, t, s.active[t]) && Good(p, s)
    requires |p| < NO_BLOCK && Resolves(p, EntryOf(p, t).first)
    ensures Yields(JobOf(p, weight), Capture(p, t), TermBatches(p, s, t))
    ensures Concat(TermBatches(p, s, t)) == [EntryOf(p, t).first] + AllRefs(p, s.active[t])
  {
    hide Good, AllRefs, Concat, AfterPage;
    var bs := s.active[t];
    var e := EntryOf(p, t);
    var w := Capture(p, t);
    ConcatPages(p, bs);
    ConcatCons([e.first], PageBatches(p, bs));
    assert TermBatches(p, s, t)[1..] == PageBatches(p, bs);
    forall i | 0 <= i < |bs| ensures ReadablePage(p, bs[i]) {
      assert PostingOf(p, t, bs[i]);
      DurablePage(p, s, bs[i]);
    }
    CapturedWorkIsValid(p, s, t, bs);
    if bs != [] {
      assert bs[0..] == bs;
      assert ReadablePage(p, bs[0]);
      ChainYields(p, t, bs, 0, w.at, weight);
    }
  }

  lemma SortedIsDistinct(refs: seq<OwnerRef>)
    requires Sorted(refs)
    ensures NoDuplicates(refs)
  {
    forall i, j | 0 <= i < j < |refs| ensures refs[i] != refs[j] {
      assert Before(refs[i], refs[j]);
    }
  }

  /**
   However many readers share the captured work of a durable term and however they
   interleave, once all have added their share the batches they consumed are the term's
   inline owner and its active chain: every owner once, none twice.
   */
  lemma ParallelScanIsExact(p: Pages, s: Shape, t: TermRef, weight: OwnerBatch -> nat,
                            states: seq<State<Work, OwnerBatch>>, actions: seq<Action<Work>>, k: nat)
    requires t in s.active && TermOk(p, t, s.active[t]) && Good(p, s)
    requires |p| < NO_BLOCK && Resolves(p, EntryOf(p, t).first)
    requires IsRun(JobOf(p, weight), states, actions) && k < |states| && states[k].start == Some(Capture(p, t))
    requires states[k].workers != map[] && forall i | i in states[k].workers :: states[k].workers[i].phase.Added?
    ensures Concat(BatchesOf(states[k].log)) == [EntryOf(p, t).first] + AllRefs(p, s.active[t])
    ensures NoDuplicates(Concat(BatchesOf(states[k].log)))
    ensures states[k].total == SumOf(JobOf(p, weight), TermBatches(p, s, t))
  {
    hide Good, Next, Yields;
    TermYields(p, s, t, weight);
    AllAddedIsSequential(JobOf(p, weight), states, actions, k);
    YieldsOnce(JobOf(p, weight), Capture(p, t), BatchesOf(states[k].log), TermBatches(p, s, t));
    SortedIsDistinct([EntryOf(p, t).first] + AllRefs(p, s.active[t]));
  }

  /**
   Every team of readers can complete the scan of a durable term, whichever reader gets the
   inline owner and whichever gets each page, and has then read every owner once.
   */
  lemma ScanCompletes(p: Pages, s: Shape, t: TermRef, weight: OwnerBatch -> nat, team: set<nat>, owners: seq<nat>)
      returns (states: seq<State<Work, OwnerBatch>>, actions: seq<Action<Work>>)
    requires t in s.active && TermOk(p, t, s.active[t])
    requires |p| < NO_BLOCK && Resolves(p, EntryOf(p, t).first)
    requires team != {} && |owners| == 1 + |s.active[t]| && forall k | 0 <= k < |owners| :: owners[k] in team
    requires Good(p, s)
    ensures Complete(JobOf(p, weight), states, actions, team, Capture(p, t), owners, TermBatches(p, s, t))
    ensures Concat(BatchesOf(states[|actions|].log)) == [EntryOf(p, t).first] + AllRefs(p, s.active[t])
  {
    hide Good, Next, Yields, Apply, Enabled;
    TermYields(p, s, t, weight);
    states, actions := EveryDivisionHappens(JobOf(p, weight), Capture(p, t), TermBatches(p, s, t), team, owners);
    var i :| i in team;
    assert i in states[|actions|].workers;
    ParallelScanIsExact(p, s, t, weight, states, actions, |actions|);
  }

  // ----- on any pages, damaged ones included -----

  lemma JoinSorted(first: OwnerRef, a: seq<OwnerRef>, b: seq<OwnerRef>)
    requires Sorted([first] + a) && Sorted([LastOf(first, a)] + b)
    ensures Sorted([first] + (a + b))
  {
    var head, tail, all := [first] + a, [LastOf(first, a)] + b, [first] + (a + b);
    forall i, j | 0 <= i < j < |all| ensures Before(all[i], all[j]) {
      if j <= |a| {
        assert Before(head[i], head[j]);
      } else {
        assert tail[j - |a|] == all[j] && Before(tail[0], tail[j - |a|]);
        if i < |a| {
          assert head[|a|] == tail[0] && Before(head[i], head[|a|]);
          BeforeTrans(head[i], tail[0], all[j]);
        } else {
          assert Before(tail[i - |a|], tail[j - |a|]);
        }
      }
    }
  }

  /** A batch continues the order of what was handed out before it, and the successor has less left to do. */
  lemma NextContinues(p: Pages, w: Work)
    requires Next(p, w).Batch?
    ensures w.Inline? ==>
              Next(p, w).batch == [w.at.previous] && (Next(p, w).next.Done? || Next(p, w).next == Chain(w.at))
    ensures w.Chain? ==>
              && w.at.remaining > 0 && Sorted([w.at.previous] + Next(p, w).batch)
              && (Next(p, w).next.Done? ||
                   (Next(p, w).next.Chain? && Next(p, w).next.at.remaining == w.at.remaining - 1 &&
                     Next(p, w).next.at.previous == LastOf(w.at.previous, Next(p, w).batch)))
    ensures !w.Done?
  {
    hide Sorted, PageOk;
  }

  /** How far work reaches: its batches rise, and there are no more than its words allow. */
  ghost predicate InOrder(w: Work, batches: seq<OwnerBatch>) {
    match w
    case Done => batches == []
    case Inline(c) => Sorted(Concat(batches)) && |batches| <= c.remaining + 1
    case Chain(c) => Sorted([c.previous] + Concat(batches)) && |batches| <= c.remaining
  }

  lemma {:induction false} LeadsInOrder(p: Pages, weight: OwnerBatch -> nat, w: Work, batches: seq<OwnerBatch>,
      end: Work)
    requires Leads(JobOf(p, weight), w, batches, end)
    ensures InOrder(w, batches)
    decreases |batches|
  {
    hide Next, Sorted, ValidWork;
    if batches == [] {
      OneIsSorted(w);
      assert Concat([]) == [];
      if w.Chain? {
        assert [w.at.previous] + [] == [w.at.previous];
      }
    } else {
      var rest := batches[1..];
      NextContinues(p, w);
      LeadsInOrder(p, weight, Next(p, w).next, rest, end);
      assert batches == [batches[0]] + rest;
      ConcatCons(batches[0], rest);
      OrderContinues(p, w, batches[0], rest, Next(p, w).next);
    }
  }

  lemma OneIsSorted(w: Work)
    ensures Sorted([]) && (!w.Done? ==> Sorted([w.at.previous]))
  {
  }

  lemma OrderContinues(p: Pages, w: Work, first: OwnerBatch, rest: seq<OwnerBatch>, next: Work)
    requires Next(p, w) == Batch(next, first) && InOrder(next, rest)
    requires Concat([first] + rest) == first + Concat(rest)
    ensures InOrder(w, [first] + rest)
  {
    hide Next, Sorted, ValidWork;
    NextContinues(p, w);
    OneIsSorted(w);
    assert Concat([]) == [];
    if w.Chain? {
      if next.Done? {
        assert first + [] == first;
      } else {
        JoinSorted(w.at.previous, first, Concat(rest));
      }
    } else if next.Done? {
      assert first + [] == first;
    }
  }

  /**
   Whatever the pages hold, no owner is ever handed to two readers or twice to one: in every
   state of every run the claimed owners rise strictly, and a cyclic chain is cut off after as
   many claims as the captured relation has blocks.
   */
  lemma ClaimsNeverRepeat(p: Pages, weight: OwnerBatch -> nat, states: seq<State<Work, OwnerBatch>>,
      actions: seq<Action<Work>>, k: nat)
    requires IsRun(JobOf(p, weight), states, actions) && k < |states|
    ensures Sorted(Concat(BatchesOf(states[k].log))) && NoDuplicates(Concat(BatchesOf(states[k].log)))
    ensures states[k].start.Some? && !states[k].start.value.Done? ==>
              |states[k].log| <= states[k].start.value.at.remaining + 1
  {
    hide Next, Sorted, ValidWork, Enabled, Apply, IsRun;
    var s := states[k];
    var batches := BatchesOf(s.log);
    InvAlways(JobOf(p, weight), states, actions, k);
    if s.start.Some? {
      LeadsInOrder(p, weight, s.start.value, batches, s.work.value);
      SortedTail(s.start.value, batches);
    } else {
      OneIsSorted(Done);
      assert batches == [] && Concat([]) == [];
    }
    SortedIsDistinct(Concat(batches));
  }

  lemma SortedTail(w: Work, batches: seq<OwnerBatch>)
    requires InOrder(w, batches)
    ensures Sorted(Concat(batches))
  {
    if w.Chain? {
      var all := [w.at.previous] + Concat(batches);
      assert forall i | 0 <= i < |Concat(batches)| :: Concat(batches)[i] == all[i + 1];
    }
  }
}
