/**
 Crash-recoverable compaction of posting chains over a fallible page store.

 The host may fail any call. A failed call aborts the operation, which leaves whatever was
 committed so far: a crash is a failure of the next call. `patience` is the number of host
 calls that still succeed, so a statement about every value of `patience` is a statement
 about a crash at every point between two commits.
 */
module Compaction {
  import opened Outcomes
  import opened PostingPages
  import opened PostingSteps
  import opened CompactionFacts
  import opened CompactionRuns
  import opened CompactionAccounts

  class Store {
    var pages: Pages
    var patience: nat
    ghost var shape: Shape

    ghost predicate Valid()
      reads this
    {
      Good(pages, shape)
    }

    /** One host call: an interrupt check, an event hook, or the start of any request. */
    method HostCall() returns (ok: bool)
      modifies `patience
      ensures ok == (old(patience) > 0)
      ensures ok ==> patience == old(patience) - 1
      ensures !ok ==> patience == 0
    {
      ok := patience > 0;
      if ok {
        patience := patience - 1;
      }
    }

    method LoadAny(b: nat) returns (r: Result<Page, Error>)
      modifies `patience
      ensures r.Ok? ==> b < |pages| && r.value == pages[b]
      ensures r.Err? ==>
                (r.error == Host && patience == 0) || (r.error == InvalidState &&
                (b >= |pages| || !PageOk(b, pages[b])))
    {
      var ok := HostCall();
      if !ok {
        return Err(Host);
      }
      if b >= |pages| || !PageOk(b, pages[b]) {
        return Err(InvalidState);
      }
      r := Ok(pages[b]);
    }

    /** Persists at most three distinct pages, all of them or none. */
    method Commit(images: seq<(nat, Page)>) returns (ok: bool)
      requires Fits(pages, images)
      modifies `patience, `pages
      ensures pages == if ok then Applied(old(pages), images) else old(pages)
      ensures !ok ==> patience == 0
    {
      ok := HostCall();
      if ok {
        pages := Applied(pages, images);
      }
    }

    /** Reserves a never used block, which reads as zeros until it is committed. */
    method Extend() returns (r: Result<nat, Error>)
      requires |pages| <= NO_BLOCK
      modifies `patience, `pages
      ensures r.Ok? ==> old(|pages|) < NO_BLOCK && r.value == old(|pages|) && pages == old(pages) + [Zero]
      ensures r.Err? ==> r.error == Host && pages == old(pages)
      ensures r.Err? ==> patience == 0 || |pages| == NO_BLOCK
    {
      var ok := HostCall();
      if !ok || |pages| == NO_BLOCK {
        return Err(Host);
      }
      r := Ok(|pages|);
      pages := pages + [Zero];
    }

    method LoadPosting(b: nat, t: TermRef) returns (r: Result<Page, Error>)
      modifies `patience
      ensures r.Ok? ==> PostingOf(pages, t, b) && r.value == pages[b]
      ensures r.Err? ==>
                || (r.error == Host && patience == 0)
                || (r.error == InvalidState && (!PostingOf(pages, t, b) || !PageOk(b, pages[b])))
    {
      r := LoadAny(b);
      if r.Ok? && (!r.value.Posting? || r.value.term != t) {
        r := Err(InvalidState);
      }
    }

    /** The heap root of a live owner, or nothing when the owner was removed. */
    method Resolve(cache: Cache, ref: OwnerRef) returns (r: Result<Option<nat>, Error>, after: Cache)
      requires CacheOk(pages, cache) && PagesOk(pages) && ValidRef(ref)
      modifies `patience
      ensures CacheOk(pages, after)
      ensures r.Ok? ==> Resolves(pages, ref)
      ensures r.Ok? ==> r.value == if Live(pages, ref) then Some(RootOf(pages, ref)) else None
      ensures r.Err? ==> (r.error == Host && patience == 0) || (r.error == InvalidState && !Resolves(pages, ref))
    {
      after := cache;
      if cache.NoCache? || cache.block != ref.page || ref.slot >= |cache.page.slots| {
        var loaded := LoadAny(ref.page);
        if loaded.Err? {
          return Err(loaded.error), cache;
        }
        if !loaded.value.Owners? {
          return Err(InvalidState), cache;
        }
        after := Cached(ref.page, loaded.value);
      }
      if ref.slot >= |after.page.slots| || after.page.slots[ref.slot].ref != ref {
        return Err(InvalidState), after;
      }
      var owner := after.page.slots[ref.slot];
      r := Ok(if owner.live && owner.published then Some(owner.root) else None);
    }

    /** Checks that one page continues an ordered stream and counts its removed owners. */
    method CheckRefs(refs: seq<OwnerRef>, previous: Option<OwnerRef>, liveness: bool, cache: Cache,
        ghost seen: seq<OwnerRef>)
      returns (r: Result<(Option<OwnerRef>, nat), Error>, after: Cache)
      requires CacheOk(pages, cache) && PagesOk(pages)
      requires forall i | 0 <= i < |refs| :: ValidRef(refs[i])
      requires Sorted(seen) && previous == LastOf(seen)
      modifies `patience
      ensures CacheOk(pages, after)
      ensures r.Ok? ==>
                && Continues(pages, seen, refs, liveness)
                && r.value.0 == LastOf(seen + refs)
                && r.value.1 == if liveness then |refs| - |LiveOnly(pages, refs)| else 0
      ensures r.Err? ==>
                || (r.error == Host && patience == 0)
                || (r.error == InvalidState && !Continues(pages, seen, refs, liveness))
    {
      hide Resolves, LiveOnly;
      after := cache;
      var last := previous;
      var dead := 0;
      var i := 0;
      assert seen + refs[..0] == seen && refs[..0] == [];
      NothingLive(pages, []);
      while i < |refs|
        invariant 0 <= i <= |refs|
        invariant CacheOk(pages, after)
        invariant Sorted(seen + refs[..i]) && last == LastOf(seen + refs[..i])
        invariant liveness ==> forall j | 0 <= j < i :: Resolves(pages, refs[j])
        invariant dead == if liveness then i - |LiveOnly(pages, refs[..i])| else 0
      {
        var ref := refs[i];
        if last.Some? && !Before(last.value, ref) {
          assert !Sorted(seen + refs) by { NotSorted(seen, refs, i); }
          return Err(InvalidState), after;
        }
        SortedSnoc(seen + refs[..i], ref);
        assert (seen + refs[..i]) + [ref] == seen + refs[..i + 1];
        LiveStep(pages, refs, i);
        last := Some(ref);
        if liveness {
          var root;
          root, after := Resolve(after, ref);
          if root.Err? {
            return Err(root.error), after;
          }
          if root.value.None? {
            dead := dead + 1;
          }
        }
        i := i + 1;
      }
      assert refs[..i] == refs;
      r := Ok((last, dead));
    }

    /** Reads one page of a chain and adds what it holds to the running tally. */
    method TallyPage(block: nat, t: TermRef, tally: Tally, liveness: bool, cache: Cache, ghost first: seq<OwnerRef>,
        ghost found: seq<nat>)
      returns (r: Result<(Page, Tally), Error>, after: Cache)
      requires CacheOk(pages, cache) && PagesOk(pages) && RefsValid(pages)
      requires PostingsAt(pages, found) && TallyOk(pages, first, found, liveness, tally)
      modifies `patience
      ensures CacheOk(pages, after)
      ensures r.Ok? ==>
                && PostingOf(pages, t, block) && r.value.0 == pages[block]
                && TallyOk(pages, first, found + [block], liveness, r.value.1)
      ensures r.Err? ==>
                || (r.error == Host && patience == 0)
                || (r.error == InvalidState
                    && !(PostingOf(pages, t, block) && Continues(pages, first + AllRefs(pages, found),
                         pages[block].refs, liveness)))
    {
      hide Sorted, ResolveAll, Continues, PageOk, RefsValid, StatsCounts, PrefixAt, NextTally;
      var loaded := LoadPosting(block, t);
      if loaded.Err? {
        assert PostingOf(pages, t, block) ==> PageOk(block, pages[block]);
        return Err(loaded.error), cache;
      }
      var page := loaded.value;
      ValidOn(pages, block);
      var checked;
      checked, after := CheckRefs(page.refs, tally.last, liveness, cache, first + AllRefs(pages, found));
      if checked.Err? {
        return Err(checked.error), after;
      }
      TallyStep(pages, first, found, block, liveness, tally, checked.value.0, checked.value.1);
      r := Ok((page, NextTally(tally, block, page, checked.value.0, checked.value.1)));
    }

    /**
     Accepts exactly the terminal, acyclic, ordered chains of one term. `expected` stands
     for any candidate chain; `found` is the chain that was walked.
     */
    method Inspect(t: TermRef, head: nat, tail: nat, previous: Option<OwnerRef>, liveness: bool,
        ghost expected: seq<nat>)
      returns (r: Result<ChainStats, Error>, ghost found: seq<nat>)
      requires PagesOk(pages) && 0 < |pages| <= NO_BLOCK
      requires RefsValid(pages)
      modifies `patience
      ensures r.Ok? ==>
                Accepted(pages, t, head, tail, previous, liveness, found) && StatsOk(pages, found, liveness, r.value)
      ensures r.Err? ==>
                || (r.error == Host && patience == 0)
                || (r.error == InvalidState && !Accepted(pages, t, head, tail, previous, liveness, expected))
    {
      found := [];
      StartOk(pages, t, previous, liveness);
      hide Accepted, PostChain, Sorted, Continues, PageOk, PagesOk, RefsValid, TallyOk;
      ghost var chainOk := Accepted(pages, t, head, tail, previous, liveness, expected);
      if chainOk {
        ExpectedNonempty(pages, t, head, tail, previous, liveness, expected);
      }
      if head == NO_BLOCK {
        if tail != NO_BLOCK {
          return Err(InvalidState), found;
        }
        assert PrefixAt(pages, [], 0, None);
        return Ok(ChainStats(0, 0, 0, None)), found;
      }
      var remaining := |pages|;
      var block := head;
      var cache := NoCache;
      var tally := Tally(ChainStats(0, 0, 0, None), previous, liveness, None, 0);
      while true
        invariant CacheOk(pages, cache)
        invariant Walked(pages, t, tail, found)
        invariant remaining + |found| == |pages| && remaining > 0
        invariant block == (if found == [] then head else pages[found[|found| - 1]].next)
        invariant found != [] ==> found[0] == head
        invariant TallyOk(pages, Start(previous), found, liveness, tally)
        invariant chainOk ==> found < expected
        decreases remaining
      {
        if chainOk {
          ExpectedStep(pages, t, head, tail, previous, liveness, expected, found, block);
        }
        var step;
        step, cache := TallyPage(block, t, tally, liveness, cache, Start(previous), found);
        if step.Err? {
          return Err(step.error), found;
        }
        var page := step.value.0;
        tally := step.value.1;
        var next := PostingNext(block, page, tail, remaining);
        if next.Err? {
          return Err(next.error), found;
        }
        remaining := next.value.1;
        if next.value.0.None? {
          if page.next != NO_BLOCK {
            return Err(InvalidState), found;
          }
          WalkAccepted(pages, t, head, tail, previous, liveness, found, tally);
          return Ok(tally.stats), found + [block];
        }
        MoreWalked(pages, t, tail, found, block);
        found := found + [block];
        block := next.value.0.value;
      }
    }

    /**
     Moves the journal's pages to the free list, at most two per commit. Whatever the host
     does, the journal still to be drained followed by the free list stays the same, so a
     run that was stopped and repeated ends with the same list.
     */
    method Recover() returns (r: Result<nat, Error>)
      requires Valid()
      modifies this
      ensures Valid()
      ensures |pages| == old(|pages|)
      ensures shape.active == old(shape.active) && shape.buckets == old(shape.buckets)
      ensures Undisturbed(old(pages), pages, shape.active)
      ensures Drained(shape) == old(Drained(shape))
      ensures old(shape.journal) == [] ==> pages == old(pages) && shape == old(shape)
      ensures r.Ok? ==> r.value == old(|shape.journal|) && shape.journal == []
      ensures r.Err? ==> r.error == Host && patience == 0
    {
      hide Good, Undisturbed, Accepted, RefsValid, StatsOk;
      UndisturbedSelf(pages, shape);
      MetaFirst(pages, shape);
      NoJournalFacts(pages, shape);
      var loaded := LoadAny(0);
      if loaded.Err? {
        return Err(loaded.error);
      }
      var meta := loaded.value;
      if meta.journal.NoJournal? {
        return Ok(0);
      }
      JournalEnds(pages, shape);
      JournalFacts(pages, shape);
      var journal := meta.journal;
      var first := LoadAny(journal.head);
      if first.Err? {
        return Err(first.error);
      }
      if !first.value.Posting? {
        return Err(InvalidState);
      }
      var t := first.value.term;
      var dictionary := LoadAny(t.page);
      if dictionary.Err? {
        return Err(dictionary.error);
      }
      if !dictionary.value.Dictionary? || t.index >= |dictionary.value.entries| {
        return Err(InvalidState);
      }
      var active := dictionary.value.entries[t.index];
      var pending, foundJ := Inspect(t, journal.head, journal.tail, None, false, shape.journal);
      if pending.Err? {
        return Err(pending.error);
      }
      var current, foundA := Inspect(t, active.head, active.tail, Some(active.first), false, shape.active[t]);
      if current.Err? {
        return Err(current.error);
      }
      // two finite terminal chains meet exactly when they share a tail
      if active.tail == journal.tail {
        return Err(InvalidState);
      }
      r := Drain(meta, t);
    }

    /** Commits one batch of reclaimed pages and reports the event. */
    method ReclaimBatch(images: seq<(nat, Page)>, ghost p0: Pages, ghost s': Shape)
        returns (committed: bool, reported: bool)
      requires Valid() && Drains(pages, shape, images, s') && Undisturbed(p0, pages, shape.active)
      requires s'.active == shape.active && s'.buckets == shape.buckets && Drained(s') == Drained(shape)
      modifies this
      ensures Valid() && Undisturbed(p0, pages, shape.active)
      ensures committed ==> pages == Applied(old(pages), images) && shape == s'
      ensures !committed ==> !reported && pages == old(pages) && shape == old(shape)
      ensures !reported ==> patience == 0
    {
      hide Good, Undisturbed, Drained;
      ghost var p1 := pages;
      committed := Commit(images);
      reported := false;
      if committed {
        shape := s';
        UndisturbedStep(p0, p1, pages, shape);
        reported := HostCall();
      }
    }

    /** Reclaims one or two pages in one commit; answers the next journal head, if any. */
    method DrainSome(image: Page, t: TermRef, remaining: nat, ghost p0: Pages)
      returns (r: Result<(Option<nat>, nat), Error>, meta: Page)
      requires 0 < |pages| && image == pages[0] && shape.journal != []
      requires PostingOf(pages, t, shape.journal[0])
      requires |shape.journal| < remaining
      requires Undisturbed(p0, pages, shape.active)
      requires Valid()
      modifies this
      ensures Valid() && Undisturbed(p0, pages, shape.active)
      ensures |pages| == old(|pages|)
      ensures shape.active == old(shape.active) && shape.buckets == old(shape.buckets)
      ensures Drained(shape) == old(Drained(shape))
      ensures r.Ok? ==>
                && r.value.1 in {1, 2} && r.value.1 <= old(|shape.journal|)
                && shape.journal == old(shape.journal)[r.value.1..]
                && r.value.0 == (if shape.journal == [] then None else Some(shape.journal[0]))
                && meta == pages[0]
                && (shape.journal != [] ==> PostingOf(pages, t, shape.journal[0]))
      ensures r.Err? ==> r.error == Host && patience == 0
    {
      hide Good, Undisturbed, ReclaimedShape, Drained, PageOk, Applied, Drains;
      meta := image;
      JournalEnds(pages, shape);
      var block := meta.journal.head;
      var tail := meta.journal.tail;
      var page := LoadPosting(block, t);
      if page.Err? {
        return Err(page.error), meta;
      }
      var next := PostingNext(block, page.value, tail, remaining);
      if next.Err? {
        return Err(InvalidState), meta;
      }
      ReclaimedParts(shape);
      var free := Free(meta.free);
      if next.value.0.None? {
        meta := meta.(journal := NoJournal, free := block);
        var images := [(0, meta), (block, free)];
        ReclaimLast(pages, shape, images);
        AppliedPair(pages, images);
        var committed, reported := ReclaimBatch(images, p0, ReclaimedShape(shape));
        return if reported then Ok((None, 1)) else Err(Host), meta;
      }
      var secondBlock := next.value.0.value;
      var second := LoadPosting(secondBlock, t);
      if second.Err? {
        return Err(second.error), meta;
      }
      next := PostingNext(secondBlock, second.value, tail, remaining - 1);
      if next.Err? {
        return Err(InvalidState), meta;
      }
      meta := meta.(
        journal := if next.value.0.None? then NoJournal else meta.journal.(head := next.value.0.value),
        free := secondBlock);
      var images := [(0, meta), (block, free), (secondBlock, Free(block))];
      ReclaimPair(pages, shape, images);
      ReclaimedParts(ReclaimedShape(shape));
      FirstImage(pages, shape, images);
      // two retired pages and the journal fit one atomic batch of three pages
      var committed, reported := ReclaimBatch(images, p0, ReclaimedShape(ReclaimedShape(shape)));
      r := if reported then Ok((next.value.0, 2)) else Err(Host);
    }

    /** The reclaiming loop of recovery, once both chains were accepted. */
    method Drain(image: Page, t: TermRef) returns (r: Result<nat, Error>)
      requires 0 < |pages| && image == pages[0] && shape.journal != []
      requires PostingOf(pages, t, shape.journal[0])
      requires Valid()
      modifies this
      ensures Valid()
      ensures |pages| == old(|pages|)
      ensures shape.active == old(shape.active) && shape.buckets == old(shape.buckets)
      ensures Undisturbed(old(pages), pages, shape.active)
      ensures Drained(shape) == old(Drained(shape))
      ensures r.Ok? ==> r.value == old(|shape.journal|) && shape.journal == []
      ensures r.Err? ==> r.error == Host && patience == 0
    {
      hide Good, Undisturbed, Drained, PageOk;
      ghost var p0, s0 := pages, shape;
      UndisturbedSelf(pages, shape);
      JournalEnds(pages, shape);
      var meta := image;
      var reclaimed := 0;
      var remaining := |pages|;
      while true
        invariant Valid() && 0 < |pages| && meta == pages[0]
        invariant |pages| == |p0| && shape.active == s0.active && shape.buckets == s0.buckets
        invariant Undisturbed(p0, pages, shape.active)
        invariant Drained(shape) == Drained(s0)
        invariant shape.journal != [] && PostingOf(pages, t, shape.journal[0])
        invariant |shape.journal| + reclaimed == |s0.journal| && |s0.journal| < |p0|
        invariant remaining == |pages| - reclaimed
        decreases |shape.journal|
      {
        var step;
        step, meta := DrainSome(meta, t, remaining, p0);
        if step.Err? {
          return Err(step.error);
        }
        reclaimed := reclaimed + step.value.1;
        remaining := remaining - step.value.1;
        if step.value.0.None? {
          return Ok(reclaimed);
        }
      }
    }

    /** Stores the filled output page and links it to the journal, in one batch. */
    method PersistOutput(d: Draft, t: TermRef, direct: bool, ghost p0: Pages, ghost s0: Shape,
        ghost emitted: seq<OwnerRef>)
      returns (r: Result<Draft, Error>)
      requires Drafting(p0, s0, pages, shape, t, direct, emitted, d) && d.output.Some?
      requires Accounted(p0, s0, pages, shape, direct, d)
      requires Valid()
      modifies this
      ensures Valid() && OwnersKept(old(pages), pages)
      ensures Retained(p0, s0, pages, shape)
      ensures r.Ok? ==> Drafting(p0, s0, pages, shape, t, direct, emitted, r.value) && r.value.output.None?
      ensures r.Ok? ==> Accounted(p0, s0, pages, shape, direct, r.value)
      ensures r.Ok? ==>
                && shape.journal != [] && TailOf(shape.journal) < |pages| && pages[TailOf(shape.journal)].Posting?
                && pages[TailOf(shape.journal)].refs == d.output.value.refs
      ensures r.Err? ==> r.error == Host && patience == 0
    {
      hide Good, Retained, OutputPages, BuilderOk, Sorted, AllRefsOf, OwnersKept, PageOk, Applied, FreeAfter,
          StoredShape, Accounted, StoredPage, Stored, Storable;
      BuilderTail(pages, shape);
      OwnersSame(pages);
      var b := d.output.value;
      BuilderReady(pages, shape, t, direct, b);
      var page := Finish(b).value;
      var meta := d.meta;
      var images;
      if meta.journal.NoJournal? {
        meta := meta.(journal := Journal(b.block, b.block, Building));
        images := [(0, meta), (b.block, page)];
      } else {
        if meta.journal.phase != Building {
          return Err(InvalidState);
        }
        var previous := LoadPosting(meta.journal.tail, t);
        if previous.Err? {
          TailPosting(pages, shape, t, direct);
          return Err(previous.error);
        }
        if previous.value.next != NO_BLOCK || previous.value.kind == Mutable {
          TailPosting(pages, shape, t, direct);
          return Err(InvalidState);
        }
        images := [(0, meta.(journal := meta.journal.(tail := b.block))),
            (meta.journal.tail, Relinked(previous.value, b.block)), (b.block, page)];
        meta := meta.(journal := meta.journal.(tail := b.block));
      }
      StoreBatch(pages, shape, t, direct, emitted, d, meta, images);
      ghost var p1, s1 := pages, shape;
      ghost var s2 := StoredShape(pages, shape, b.block);
      var done := Commit(images);
      if !done {
        return Err(Host);
      }
      shape := s2;
      StoredDraft(p0, s0, p1, s1, t, direct, emitted, d, images, s2);
      StoredPageIs(p1, s1, b);
      StoredAccount(p0, s0, p1, s1, pages, s2, direct, d, meta);
      StoredOwners(p1, s1, t, direct, images, b, s2);
      var event := HostCall();
      if !event {
        return Err(Host);
      }
      r := Ok(Draft(meta, None, d.written + 1, d.reused));
    }

    /** Takes a free block, or extends the relation, and starts a page with one reference. */
    method OpenOutput(d: Draft, ref: OwnerRef, root: nat, t: TermRef, direct: bool,
                      ghost p0: Pages, ghost s0: Shape, ghost emitted: seq<OwnerRef>)
      returns (r: Result<Draft, Error>)
      requires Drafting(p0, s0, pages, shape, t, direct, emitted, d) && d.output.None?
      requires Resolves(pages, ref) && root == RootOf(pages, ref) && Sorted(emitted + [ref])
      requires Accounted(p0, s0, pages, shape, direct, d)
      requires shape.journal != [] ==> NoRoom(pages, TailOf(shape.journal), ref, direct)
      requires Valid()
      modifies this
      ensures Valid() && OwnersKept(old(pages), pages)
      ensures Retained(p0, s0, pages, shape)
      ensures r.Ok? ==> Drafting(p0, s0, pages, shape, t, direct, emitted + [ref], r.value)
      ensures r.Ok? ==> Accounted(p0, s0, pages, shape, direct, r.value) && r.value.output.Some?
      ensures r.Err? ==> r.error == Host && (patience == 0 || |pages| == NO_BLOCK)
    {
      hide Good, Retained, OutputPages, BuilderOk, Sorted, AllRefsOf, OwnersKept, PageOk, Push, PagesOk, Accounted,
          NoRoom;
      ghost var q0 := pages;
      FreeFront(pages, shape);
      OwnersSame(pages);
      var reused := d.reused + (if d.meta.free != NO_BLOCK then 1 else 0);
      var block, meta;
      if d.meta.free == NO_BLOCK {
        var event := HostCall();
        if !event {
          return Err(Host);
        }
        ghost var p1 := pages;
        var extended := Extend();
        if extended.Err? {
          return Err(extended.error);
        }
        ExtendedDraft(p0, s0, p1, shape, t, direct, emitted, d);
        OwnersDecide(p1, pages, ref);
        block, meta := extended.value, d.meta;
        event := HostCall();
        if !event {
          return Err(Host);
        }
      } else {
        var page := LoadAny(d.meta.free);
        if page.Err? {
          FreePageOk(pages, shape);
          return Err(page.error);
        }
        if !page.value.Free? {
          return Err(InvalidState);
        }
        block, meta := d.meta.free, d.meta.(free := page.value.next);
      }
      FirstPushFits(block, t, direct, ref, root);
      var builder := Push(NewBuilder(block, t, direct), ref, root);
      var after := Draft(meta, builder.value, d.written, reused);
      PushedBlock(block, t, direct, ref, root);
      OpenedDraft(p0, s0, pages, shape, t, direct, emitted, d, builder.value.value, ref, root, after);
      OpenedAccount(p0, s0, q0, pages, shape, direct, d, after, t, ref, root);
      r := Ok(after);
    }

    /** Adds one live reference to the output, starting a new page when the current one is full. */
    method Emit(d: Draft, ref: OwnerRef, root: nat, t: TermRef, direct: bool,
                ghost p0: Pages, ghost s0: Shape, ghost emitted: seq<OwnerRef>)
      returns (r: Result<Draft, Error>)
      requires Drafting(p0, s0, pages, shape, t, direct, emitted, d)
      requires Resolves(pages, ref) && root == RootOf(pages, ref) && Sorted(emitted + [ref])
      requires Accounted(p0, s0, pages, shape, direct, d) && (d.output.None? ==> shape.journal == [])
      requires Valid()
      modifies this
      ensures Valid() && OwnersKept(old(pages), pages)
      ensures Retained(p0, s0, pages, shape)
      ensures r.Ok? ==> Drafting(p0, s0, pages, shape, t, direct, emitted + [ref], r.value)
      ensures r.Ok? ==> Accounted(p0, s0, pages, shape, direct, r.value) && r.value.output.Some?
      ensures r.Err? ==> r.error == Host && (patience == 0 || |pages| == NO_BLOCK)
    {
      hide Good, Retained, DraftOk, Sorted, OwnersKept, Push, Resolves, Accounted, PageBytes;
      OwnersSame(pages);
      var draft := d;
      if d.output.Some? {
        PushIsOrdered(pages, shape, t, direct, emitted, d, ref, root);
        PushedAccount(p0, s0, pages, shape, direct, d, ref, root);
        var pushed := Push(d.output.value, ref, root);
        if pushed.value.Some? {
          PushedDraft(p0, s0, pages, shape, t, direct, emitted, d, pushed.value.value, ref, root);
          return Ok(d.(output := pushed.value));
        }
        ghost var p1 := pages;
        var stored := PersistOutput(d, t, direct, p0, s0, emitted);
        if stored.Err? {
          return Err(stored.error);
        }
        OwnersDecide(p1, pages, ref);
        draft := stored.value;
      }
      ghost var p2 := pages;
      r := OpenOutput(draft, ref, root, t, direct, p0, s0, emitted);
      OwnersChain(old(pages), p2, pages);
    }

    /** Emits the live references of one source page. */
    method RewritePage(d: Draft, refs: seq<OwnerRef>, t: TermRef, direct: bool, cache: Cache,
                       ghost p0: Pages, ghost s0: Shape, ghost emitted: seq<OwnerRef>)
      returns (r: Result<Draft, Error>, after: Cache)
      requires Drafting(p0, s0, pages, shape, t, direct, emitted, d) && CacheOk(pages, cache)
      requires Accounted(p0, s0, pages, shape, direct, d) && (d.output.None? ==> shape.journal == [])
      requires forall i | 0 <= i < |refs| :: Resolves(p0, refs[i])
      requires Sorted(emitted + LiveOnly(p0, refs))
      requires Valid()
      modifies this
      ensures Valid() && CacheOk(pages, after)
      ensures Retained(p0, s0, pages, shape)
      ensures r.Ok? ==> Drafting(p0, s0, pages, shape, t, direct, emitted + LiveOnly(p0, refs), r.value)
      ensures r.Ok? ==>
                Accounted(p0, s0, pages, shape, direct, r.value) && (r.value.output.None? ==> shape.journal == [])
      ensures r.Err? ==> r.error == Host && (patience == 0 || |pages| == NO_BLOCK)
    {
      hide Good, Retained, DraftOk, Sorted, OwnersKept, Resolves, LiveOnly, CacheOk, PagesOk, Accounted;
      after := cache;
      var draft := d;
      var i := 0;
      assert refs[..0] == [];
      NothingLive(p0, emitted);
      while i < |refs|
        invariant 0 <= i <= |refs|
        invariant Valid() && CacheOk(pages, after)
        invariant Drafting(p0, s0, pages, shape, t, direct, emitted + LiveOnly(p0, refs[..i]), draft)
        invariant Accounted(p0, s0, pages, shape, direct, draft) && (draft.output.None? ==> shape.journal == [])
      {
        var ref := refs[i];
        LiveNext(p0, emitted, refs, i);
        DraftParts(p0, s0, pages, shape, t, direct, emitted + LiveOnly(p0, refs[..i]), draft);
        OwnersDecide(p0, pages, ref);
        FreeFront(pages, shape);
        ResolvesValid(p0, ref);
        var root;
        root, after := Resolve(after, ref);
        if root.Err? {
          return Err(root.error), after;
        }
        if root.value.Some? {
          ghost var p1 := pages;
          var emittedOne := Emit(draft, ref, root.value.value, t, direct, p0, s0, emitted + LiveOnly(p0, refs[..i]));
          CacheKept(p1, pages, after);
          if emittedOne.Err? {
            return Err(emittedOne.error), after;
          }
          draft := emittedOne.value;
          assert emitted + LiveOnly(p0, refs[..i]) + [ref] == emitted + (LiveOnly(p0, refs[..i]) + [ref]);
        } else {
          assert LiveOnly(p0, refs[..i]) + [] == LiveOnly(p0, refs[..i]);
        }
        i := i + 1;
      }
      assert refs[..i] == refs;
      r := Ok(draft);
    }

    /** Copies the live references of the chain from `rewriteHead` on into unpublished output. */
    method CopyLive(meta: Page, t: TermRef, rewriteHead: nat, tail: nat, direct: bool, ghost k: nat)
      returns (r: Result<Draft, Error>)
      requires t in shape.active && k < |shape.active[t]|
      requires rewriteHead == shape.active[t][k] && tail == TailOf(shape.active[t])
      requires shape.journal == [] && 0 < |pages| && meta == pages[0]
      requires Valid()
      modifies this
      ensures Valid()
      ensures Retained(old(pages), old(shape), pages, shape)
      ensures r.Ok? ==>
                && r.value.output.None?
                && Drafting(old(pages), old(shape), pages, shape, t, direct,
                            LiveSlice(old(pages), old(shape.active[t]), k, old(|shape.active[t]|)), r.value)
                && Accounted(old(pages), old(shape), pages, shape, direct, r.value)
      ensures r.Err? ==> r.error == Host && (patience == 0 || |pages| == NO_BLOCK)
    {
      hide Good, Retained, DraftOk, Sorted, OwnersKept, Resolves, LiveSlice, TermOk, CacheOk, PagesOk, PageOk,
          AllRefsOf, Accounted;
      ghost var p0, s0 := pages, shape;
      ghost var bs := shape.active[t];
      SourceFacts(pages, shape, t);
      RetainedSelf(pages, shape);
      EmptyDraft(pages, shape, t, direct, meta);
      EmptyAccount(pages, shape, direct, meta);
      EmptySlice(pages, bs, k);
      var remaining := |pages|;
      var block := rewriteHead;
      var cache := NoCache;
      NoCacheOk(pages);
      var draft := Draft(meta, None, 0, 0);
      ghost var i := k;
      while true
        invariant Valid() && k <= i < |bs| && block == bs[i]
        invariant Drafting(p0, s0, pages, shape, t, direct, LiveSlice(p0, bs, k, i), draft)
        invariant Accounted(p0, s0, pages, shape, direct, draft) && (draft.output.None? ==> shape.journal == [])
        invariant CacheOk(pages, cache)
        invariant remaining == |p0| - (i - k)
        decreases |bs| - i
      {
        LiveSliceNext(p0, t, bs, k, i);
        SourceBlock(p0, t, bs, i);
        PageRefsResolve(p0, s0, block);
        KeptPage(p0, s0, pages, shape, t, i);
        FreeFront(pages, shape);
        SinglePageOk(pages, block);
        var page := LoadPosting(block, t);
        if page.Err? {
          return Err(page.error);
        }
        var copied;
        copied, cache := RewritePage(draft, page.value.refs, t, direct, cache, p0, s0, LiveSlice(p0, bs, k, i));
        if copied.Err? {
          return Err(copied.error);
        }
        draft := copied.value;
        var next := PostingNext(block, page.value, tail, remaining);
        if next.Err? {
          return Err(InvalidState);
        }
        remaining := next.value.1;
        i := i + 1;
        if next.value.0.None? {
          break;
        }
        block := next.value.0.value;
      }
      if draft.output.Some? {
        r := PersistOutput(draft, t, direct, p0, s0, LiveSlice(p0, bs, k, i));
      } else {
        r := Ok(draft);
      }
    }

    /** Switches one term to its rewritten chain and records the replaced pages as retiring. */
    method Publish(d: Draft, t: TermRef, head: nat, tail: nat, prefix: Option<RetainedPrefix>, direct: bool,
        ghost p0: Pages, ghost s0: Shape)
      returns (r: Result<(nat, nat), Error>)
      requires t in s0.active && PrefixFor(p0, s0.active[t], prefix, direct)
      requires KeptPages(prefix) < |s0.active[t]|
      requires head == HeadOf(s0.active[t]) && tail == TailOf(s0.active[t]) && d.output.None?
      requires Drafting(p0, s0, pages, shape, t, direct, LiveSlice(p0, s0.active[t], KeptPages(prefix), |s0.active[t]|),
                 d)
      requires Accounted(p0, s0, pages, shape, direct, d)
      requires Good(p0, s0) && Valid()
      modifies this
      ensures Valid()
      ensures r.Ok? ==>
                && Replaced(p0, s0, pages, shape, t, direct)
                && shape.journal == s0.active[t][KeptPages(prefix)..]
                && r.value.0 == |shape.active[t]| - KeptPages(prefix)
                && Rechained(p0, s0.active[t], pages, shape.active[t], KeptPages(prefix), direct)
                && Paid(p0, s0, pages, shape, r.value.0, r.value.1)
      ensures r.Err? ==> r.error == Host && patience == 0
      ensures r.Err? ==> Retained(p0, s0, pages, shape) || Replaced(p0, s0, pages, shape, t, direct)
    {
      hide Good, Retained, Sorted, OutputPages, AllRefsOf, LiveSlice, PageOk, Replaced, Rewritten, Publishable,
          PublishedShape, Applied, Publishes, LiveSealed, Rechained, Packed, Spliced;
      ghost var k := KeptPages(prefix);
      ghost var bs := s0.active[t];
      PublishReads(p0, s0, pages, shape, t, prefix, direct, d);
      CopyFinished(p0, s0, pages, shape, t, prefix, direct, d);
      var rewriteHead := if prefix.Some? then prefix.value.rewriteHead else head;
      var dictionary := LoadAny(t.page);
      if dictionary.Err? {
        return Err(dictionary.error);
      }
      if !dictionary.value.Dictionary? || t.index >= |dictionary.value.entries| {
        return Err(InvalidState);
      }
      var current := dictionary.value.entries[t.index];
      if current.head != head || current.tail != tail {
        return Err(InvalidState);
      }
      if d.meta.journal.Journal? && d.meta.journal.phase != Building {
        return Err(InvalidState);
      }
      var newHead := if d.meta.journal.Journal? then d.meta.journal.head else NO_BLOCK;
      var newTail := if d.meta.journal.Journal? then d.meta.journal.tail else NO_BLOCK;
      var meta := d.meta.(journal := Journal(rewriteHead, tail, Retiring));
      var images;
      if prefix.Some? {
        var boundary := LoadPosting(prefix.value.boundary, t);
        if boundary.Err? {
          return Err(boundary.error);
        }
        if boundary.value.kind != Sealed || boundary.value.next != rewriteHead {
          return Err(InvalidState);
        }
        // the prefix stays owned; only the old suffix enters the retirement journal
        var end := if newTail == NO_BLOCK then prefix.value.boundary else newTail;
        images := [(0, meta), (t.page, WithChain(dictionary.value, t.index, head, end)),
                   (prefix.value.boundary, Relinked(boundary.value, newHead))];
      } else {
        images := [(0, meta), (t.page, WithChain(dictionary.value, t.index, newHead, newTail))];
      }
      SplicedEnds(pages, shape, t, k);
      PublishBatch(pages, shape, t, k, images);
      PublishReplaces(p0, s0, pages, shape, t, k, direct, images);
      PublishedParts(shape, t, k);
      PublishedChain(p0, s0, pages, shape, t, k, direct, images);
      PublishesGood(pages, shape, t, k, images);
      ghost var s2 := PublishedShape(shape, t, k);
      var done := Commit(images);
      if !done {
        return Err(Host);
      }
      shape := s2;
      var event := HostCall();
      if !event {
        return Err(Host);
      }
      r := Ok((d.written, d.reused));
    }

    /** Rewrites one chain, from its first page or behind a retained prefix, and publishes it. */
    method Rewrite(meta: Page, t: TermRef, head: nat, tail: nat, prefix: Option<RetainedPrefix>, direct: bool)
      returns (r: Result<(nat, nat), Error>)
      requires t in shape.active && PrefixFor(pages, shape.active[t], prefix, direct)
      requires head == HeadOf(shape.active[t]) && tail == TailOf(shape.active[t])
      requires 0 < |pages| && meta == pages[0] && meta.Meta?
      requires Valid()
      modifies this
      ensures Valid()
      ensures r.Ok? ==>
                && Replaced(old(pages), old(shape), pages, shape, t, direct)
                && shape.journal == old(shape.active[t])[KeptPages(prefix)..]
                && r.value.0 == |shape.active[t]| - KeptPages(prefix)
                && Rechained(old(pages), old(shape.active[t]), pages, shape.active[t], KeptPages(prefix), direct)
                && Paid(old(pages), old(shape), pages, shape, r.value.0, r.value.1)
      ensures r == Err(InvalidState) ==> old(shape.journal) != [] && pages == old(pages) && shape == old(shape)
      ensures r.Err? && r.error != InvalidState ==> r.error == Host && (patience == 0 || |pages| == NO_BLOCK)
      ensures r.Err? ==>
                || Retained(old(pages), old(shape), pages, shape)
                || Replaced(old(pages), old(shape), pages, shape, t, direct)
    {
      hide Good, Retained, Replaced, Drafting, LiveSlice, LiveSealed, Accounted, Rechained, Paid;
      RetainedSelf(pages, shape);
      JournalHead(pages, shape);
      if meta.journal.Journal? {
        return Err(InvalidState);
      }
      ghost var p0, s0 := pages, shape;
      var rewriteHead := if prefix.Some? then prefix.value.rewriteHead else head;
      var copied := CopyLive(meta, t, rewriteHead, tail, direct, KeptPages(prefix));
      if copied.Err? {
        return Err(copied.error);
      }
      r := Publish(copied.value, t, head, tail, prefix, direct, p0, s0);
    }

    /** Inspects one term and rewrites its chain unless it is already clean. */
    method CompactTerm(image: Page, t: TermRef, entry: Entry, mode: Mode, before: CompactStats)
      returns (r: Result<CompactStats, Error>, meta: Page)
      requires 0 < |pages| && image == pages[0] && IsTerm(pages, t) && entry == EntryOf(pages, t)
      requires shape.journal == []
      requires Valid()
      modifies this
      ensures Valid()
      ensures Forward(old(pages), old(shape), pages, shape, mode == DirectTid)
      ensures OtherEntriesKept(old(pages), pages, t)
      ensures r.Ok? ==>
                && shape.journal == [] && 0 < |pages| && meta == pages[0]
                && t in shape.active && Clean(pages, shape.active[t], mode == DirectTid)
      ensures t in old(shape.active)
      ensures old(Clean(pages, shape.active[t], mode == DirectTid)) ==>
                pages == old(pages) && shape == old(shape) && (r.Ok? ==> r.value == before)
      ensures r.Ok? && !old(Clean(pages, shape.active[t], mode == DirectTid)) ==>
                && r.value.rewrittenTerms == before.rewrittenTerms + 1
                && r.value.removedPostings == before.removedPostings
                   + |AllRefsOf(old(pages), old(shape.active[t]))| - |AllRefsOf(pages, shape.active[t])|
                && TermReport(old(pages), old(shape), pages, shape, mode, t, before, r.value)
      ensures r.Ok? ==>
                Accounts(old(pages), old(shape), pages, shape, mode,
                         if old(Clean(pages, shape.active[t], mode == DirectTid)) then [] else [t], before, r.value)
      ensures r.Err? ==> r.error == Limit || (r.error == Host && (patience == 0 || |pages| == NO_BLOCK))
    {
      hide Good, Forward, OtherEntriesKept, Clean, TermOk, Accepted, StatsOk, RefsValid, PagesOk, Replaced, Retained,
          PrefixFor, AllRefsOf, LiveOnly, Rechained, Paid, Accounts, LiveLead, Drained, Undisturbed;
      meta := image;
      var direct := mode == DirectTid;
      ghost var p0, s0 := pages, shape;
      RetainedSelf(pages, shape);
      RetainedForward(pages, shape, pages, shape, direct, t);
      RetainedChains(pages, shape, pages, shape);
      AccountsSelf(pages, shape, mode, before);
      TermAccepted(pages, shape, t);
      TermEnds(pages, t, shape.active[t]);
      ghost var bs := shape.active[t];
      if entry.head == NO_BLOCK {
        EmptyChain(pages, t, bs, direct);
        return Ok(before), meta;
      }
      HeadlessChain(pages, t, bs);
      var summary, found := Inspect(t, entry.head, entry.tail, Some(entry.first), true, bs);
      if summary.Err? {
        return Err(summary.error), meta;
      }
      InspectedTerm(pages, shape, t, found, summary.value, direct);
      InspectedKept(pages, shape, t, found, summary.value, mode);
      var st := summary.value;
      if st.mutablePages == 0 && st.dead == 0 && !(direct && st.indirectPages != 0) {
        return Ok(before), meta;
      }
      var prefix := if mode == RetainSealedPrefix then st.prefix else None;
      var rewritten := Rewrite(meta, t, entry.head, entry.tail, prefix, direct);
      if rewritten.Err? {
        OutcomeForward(p0, s0, pages, shape, t, direct);
        return Err(rewritten.error), meta;
      }
      ReplacedForward(p0, s0, pages, shape, t, direct);
      ReplacedStream(p0, s0, pages, shape, t, direct);
      KeptIsPart(p0, bs, pages, shape.active[t], KeptPages(prefix), direct);
      var stats := CompactStats(
        before.rewrittenTerms + 1, before.removedPostings + st.dead,
        before.writtenPages + rewritten.value.0, before.reusedPages + rewritten.value.1,
        before.reclaimedPages, before.retainedPages + KeptPages(prefix));
      if stats.retainedPages > U32_MAX || stats.writtenPages > U32_MAX || stats.reusedPages > U32_MAX ||
          stats.removedPostings > U64_MAX {
        return Err(Limit), meta;
      }
      ghost var p1, s1 := pages, shape;
      var reclaimed := Recover();
      ReplacedThenDrained(p0, s0, p1, s1, pages, shape, t, direct);
      if reclaimed.Err? {
        return Err(reclaimed.error), meta;
      }
      stats := stats.(reclaimedPages := stats.reclaimedPages + reclaimed.value);
      TermDone(p0, s0, p1, s1, pages, shape, mode, t, rewritten.value.0, rewritten.value.1, before, stats);
      if stats.reclaimedPages > U32_MAX {
        return Err(Limit), meta;
      }
      // recovery advances the free list; never reuse a stale metapage image
      MetaFirst(pages, shape);
      MetaLoads(pages, shape);
      var loaded := LoadAny(0);
      if loaded.Err? {
        return Err(loaded.error), meta;
      }
      r, meta := Ok(stats), loaded.value;
    }

    /** Compacts every entry of one dictionary page, whose image was read before; `done` lists the terms rewritten. */
    method CompactEntries(image: Page, bucket: nat, block: nat, dictionary: Page, mode: Mode, before: CompactStats)
      returns (r: Result<CompactStats, Error>, meta: Page, ghost done: seq<TermRef>)
      requires 0 < |pages| && image == pages[0]
      requires block < |pages| && pages[block] == dictionary && dictionary.Dictionary?
      requires forall j | 0 <= j < |dictionary.entries| :: dictionary.entries[j].bucket == bucket
      requires shape.journal == []
      requires Valid()
      modifies this
      ensures Valid()
      ensures Forward(old(pages), old(shape), pages, shape, mode == DirectTid)
      ensures r.Ok? ==>
                && shape.journal == [] && 0 < |pages| && meta == pages[0]
                && CleanPage(pages, shape, block, mode == DirectTid)
                && Accounts(old(pages), old(shape), pages, shape, mode, done, before, r.value)
                && forall t | t in done :: t.page == block && IsTerm(old(pages), t)
      ensures (forall j | 0 <= j < |dictionary.entries| ::
                 TermRef(block, j) in old(shape.active) &&
                     old(Clean(pages, shape.active[TermRef(block, j)], mode == DirectTid))) ==>
                pages == old(pages) && shape == old(shape) && (r.Ok? ==> r.value == before)
      ensures r.Err? ==> r.error == Limit || (r.error == Host && (patience == 0 || |pages| == NO_BLOCK))
    {
      hide Good, Forward, OtherEntriesKept, Clean, AllRefsOf, SameTerms, StaysClean, CleanEntries, Accounts;
      meta, done := image, [];
      var direct := mode == DirectTid;
      ghost var p0, s0 := pages, shape;
      ghost var clean := forall j | 0 <= j < |dictionary.entries| ::
                           TermRef(block, j) in s0.active && Clean(p0, s0.active[TermRef(block, j)], direct);
      ForwardSelf(pages, shape, direct);
      NoAccount(pages, shape, mode, before);
      NoEntries(pages, shape, block, direct);
      var stats := before;
      var j := 0;
      while j < |dictionary.entries|
        invariant 0 <= j <= |dictionary.entries|
        invariant Valid() && shape.journal == [] && 0 < |pages| && meta == pages[0]
        invariant Forward(p0, s0, pages, shape, direct)
        invariant ImageCurrent(pages, block, dictionary, j)
        invariant CleanEntries(pages, shape, block, j, direct)
        invariant Accounts(p0, s0, pages, shape, mode, done, before, stats)
        invariant forall t | t in done :: t.page == block && IsTerm(p0, t)
        invariant clean ==> pages == p0 && shape == s0 && stats == before
      {
        var entry := dictionary.entries[j];
        if entry.bucket != bucket {
          return Err(InvalidState), meta, done;
        }
        var t := TermRef(block, j);
        ghost var p1, s1 := pages, shape;
        var compacted;
        compacted, meta := CompactTerm(meta, t, entry, mode, stats);
        ForwardTrans(p0, s0, p1, s1, pages, shape, direct);
        if compacted.Err? {
          return Err(compacted.error), meta, done;
        }
        ghost var more := if Clean(p1, s1.active[t], direct) then [] else [t];
        AccountsTrans(p0, s0, p1, s1, pages, shape, mode, done, more, before, stats, compacted.value);
        done := done + more;
        stats := compacted.value;
        ForwardParts(p1, s1, pages, shape, direct);
        ImageStays(p1, pages, block, dictionary, j);
        MoreEntries(p1, s1, pages, shape, block, j, direct);
        j := j + 1;
      }
      r := Ok(stats);
    }

    /** Walks one bucket's dictionary pages upwards and compacts each. */
    method CompactBucket(image: Page, bucket: nat, mode: Mode, before: CompactStats)
        returns (r: Result<CompactStats, Error>, meta: Page, ghost done: seq<TermRef>)
      requires bucket < BUCKETS && 0 < |pages| && image == pages[0]
      requires shape.journal == []
      requires Valid()
      modifies this
      ensures Valid()
      ensures Forward(old(pages), old(shape), pages, shape, mode == DirectTid)
      ensures r.Ok? ==>
                && shape.journal == [] && 0 < |pages| && meta == pages[0]
                && bucket < |shape.buckets| && CleanBucket(pages, shape, bucket, |shape.buckets[bucket]|,
                     mode == DirectTid)
                && Accounts(old(pages), old(shape), pages, shape, mode, done, before, r.value)
                && forall t | t in done :: Reachable(old(pages), old(shape), t)
      ensures old(Settled(pages, shape, mode == DirectTid)) ==>
                pages == old(pages) && shape == old(shape) && (r.Ok? ==> r.value == before)
      ensures r.Err? ==> r.error == Limit || (r.error == Host && (patience == 0 || |pages| == NO_BLOCK))
    {
      hide Good, Forward, Clean, CleanPage, Settled, DictChain, PagesOk, Accounts, Reachable;
      meta, done := image, [];
      var direct := mode == DirectTid;
      ghost var p0, s0 := pages, shape;
      ghost var settled := Settled(p0, s0, direct);
      ForwardSelf(pages, shape, direct);
      NoAccount(pages, shape, mode, before);
      BucketFacts(pages, shape, bucket);
      MetaLoads(pages, shape);
      ghost var bs := shape.buckets[bucket];
      var head, tail := meta.buckets[bucket].0, meta.buckets[bucket].1;
      BucketEnds(pages, bucket, meta.buckets[bucket], bs);
      if head == NO_BLOCK {
        return Ok(before), meta, done;
      }
      var stats := before;
      var block := head;
      ghost var i := 0;
      while true
        invariant Valid() && shape.journal == [] && 0 < |pages| && meta == pages[0]
        invariant Forward(p0, s0, pages, shape, direct)
        invariant shape.buckets == s0.buckets && i < |bs| && block == bs[i]
        invariant CleanBucket(pages, shape, bucket, i, direct)
        invariant Accounts(p0, s0, pages, shape, mode, done, before, stats)
        invariant forall t | t in done :: Reachable(p0, s0, t)
        invariant settled ==> pages == p0 && shape == s0 && stats == before
        decreases |bs| - i
      {
        BucketFacts(pages, shape, bucket);
        DictPage(pages, bucket, pages[0].buckets[bucket], bs, i);
        SinglePageOk(pages, block);
        var dictionary := LoadAny(block);
        if dictionary.Err? {
          return Err(dictionary.error), meta, done;
        }
        if !dictionary.value.Dictionary? {
          return Err(InvalidState), meta, done;
        }
        ghost var p1, s1 := pages, shape;
        if settled {
          forall j | 0 <= j < |dictionary.value.entries|
            ensures TermRef(block, j) in s1.active && Clean(p1, s1.active[TermRef(block, j)], direct)
          {
            SettledEntry(p1, s1, bucket, i, j, direct);
          }
        }
        var compacted;
        ghost var more;
        compacted, meta, more := CompactEntries(meta, bucket, block, dictionary.value, mode, stats);
        ForwardTrans(p0, s0, p1, s1, pages, shape, direct);
        if compacted.Err? {
          return Err(compacted.error), meta, done;
        }
        AccountsTrans(p0, s0, p1, s1, pages, shape, mode, done, more, before, stats, compacted.value);
        ReachedThrough(p0, s0, p1, s1, bucket, i, more, direct);
        done := done + more;
        stats := compacted.value;
        ForwardParts(p1, s1, pages, shape, direct);
        CleanBucketForward(p1, s1, pages, shape, bucket, i, direct);
        PageDone(pages, shape, bucket, i, block, direct);
        var next := Following(block, dictionary.value, tail);
        i := i + 1;
        if next.Err? {
          return Err(InvalidState), meta, done;
        }
        if next.value.None? {
          return Ok(stats), meta, done;
        }
        block := next.value.value;
      }
    }

    /**
     Compacts every chain. Whatever the host does, no reader-visible reference is lost; on
     success every reachable chain holds exactly its live references, in order. `done` lists the
     reachable terms that needed work, and the result reports what was done for them.
     */
    method Compact(mode: Mode) returns (r: Result<CompactStats, Error>, ghost done: seq<TermRef>)
      requires Valid()
      modifies this
      ensures Valid()
      ensures Progress(old(pages), old(shape), pages, shape)
      ensures r.Ok? ==> Settled(pages, shape, mode == DirectTid)
      ensures r.Ok? ==> forall t | Reachable(old(pages), old(shape), t) ::
                && t in old(shape).active && t in shape.active
                && AllRefsOf(pages, shape.active[t])
                   == LiveOnly(old(pages), AllRefsOf(old(pages), old(shape).active[t]))
      ensures r.Ok? ==> Accounts(old(pages), old(shape), pages, shape, mode, done, NO_WORK, r.value)
      ensures r.Ok? ==>
                forall t :: t in done <==>
                    && Reachable(old(pages), old(shape), t) && t in old(shape).active
                    && !Clean(old(pages), old(shape).active[t], mode == DirectTid)
      ensures old(Settled(pages, shape, mode == DirectTid)) ==>
                pages == old(pages) && shape == old(shape) && (r.Ok? ==> r.value == NO_WORK)
      ensures r.Err? ==> r.error == Limit || (r.error == Host && (patience == 0 || |pages| == NO_BLOCK))
    {
      hide Good, Forward, Progress, CleanBuckets, CleanBucket, AllRefsOf, LiveOnly, Retained, Undisturbed, PageOk,
          Reachable, Accounts, Clean, Drained;
      done := [];
      var direct := mode == DirectTid;
      ghost var p0, s0 := pages, shape;
      ghost var settled := Settled(p0, s0, direct);
      ForwardSelf(pages, shape, direct);
      ForwardParts(pages, shape, pages, shape, direct);
      var reclaimed := Recover();
      RetainedAfter(p0, s0, pages, shape);
      RetainedForward(p0, s0, pages, shape, direct, TermRef(0, 0));
      ForwardParts(p0, s0, pages, shape, direct);
      if reclaimed.Err? {
        return Err(reclaimed.error), done;
      }
      var stats := NO_WORK.(reclaimedPages := reclaimed.value);
      AccountRecovery(p0, s0, pages, shape, mode, NO_WORK);
      MetaLoads(pages, shape);
      var loaded := LoadAny(0);
      if loaded.Err? {
        return Err(loaded.error), done;
      }
      var meta := loaded.value;
      NoBuckets(pages, shape, direct);
      var bucket := 0;
      while bucket < BUCKETS
        invariant 0 <= bucket <= BUCKETS
        invariant Valid() && shape.journal == [] && 0 < |pages| && meta == pages[0]
        invariant Forward(p0, s0, pages, shape, direct)
        invariant CleanBuckets(pages, shape, bucket, direct)
        invariant Accounts(p0, s0, pages, shape, mode, done, NO_WORK, stats)
        invariant forall t | t in done :: Reachable(p0, s0, t)
        invariant settled ==> pages == p0 && shape == s0 && stats == NO_WORK
      {
        var go := HostCall();
        if !go {
          ForwardParts(p0, s0, pages, shape, direct);
          return Err(Host), done;
        }
        ghost var p1, s1 := pages, shape;
        var compacted;
        ghost var more;
        compacted, meta, more := CompactBucket(meta, bucket, mode, stats);
        ForwardTrans(p0, s0, p1, s1, pages, shape, direct);
        if compacted.Err? {
          ForwardParts(p0, s0, pages, shape, direct);
          return Err(compacted.error), done;
        }
        AccountsTrans(p0, s0, p1, s1, pages, shape, mode, done, more, NO_WORK, stats, compacted.value);
        ReachedBefore(p0, s0, p1, s1, more, direct);
        done := done + more;
        stats := compacted.value;
        CleanBucketsForward(p1, s1, pages, shape, bucket, direct);
        BucketDone(pages, shape, bucket, direct);
        bucket := bucket + 1;
      }
      ForwardParts(p0, s0, pages, shape, direct);
      BucketFacts(pages, shape, 0);
      forall t | Reachable(p0, s0, t)
        ensures t in s0.active && t in shape.active
        ensures AllRefsOf(pages, shape.active[t]) == LiveOnly(p0, AllRefsOf(p0, s0.active[t]))
      {
        StillReachable(p0, s0, pages, shape, t);
        ReachableClean(pages, shape, t, direct);
        CleanIsFiltered(p0, s0, pages, shape, t, direct);
      }
      forall t
        ensures t in done <==> Reachable(p0, s0, t) && t in s0.active && !Clean(p0, s0.active[t], direct)
      {
        WorkWasNeeded(p0, s0, pages, shape, mode, done, NO_WORK, stats, t);
      }
      r := Ok(stats);
    }
  }

  datatype Attempt = Recovery(patience: nat) | Compacting(mode: Mode, patience: nat)

  /**
   Any sequence of recoveries and compactions, each cut short by the host after an arbitrary
   number of calls: the state stays good and no live reference of any term is ever lost.
   */
  method RunAttempts(store: Store, attempts: seq<Attempt>)
    requires store.Valid()
    modifies store
    ensures store.Valid()
    ensures Progress(old(store.pages), old(store.shape), store.pages, store.shape)
    ensures forall t | t in old(store.shape).active ::
              t in store.shape.active
              && LiveOnly(store.pages, AllRefsOf(store.pages, store.shape.active[t]))
                   == LiveOnly(old(store.pages), AllRefsOf(old(store.pages), old(store.shape).active[t]))
  {
    hide Good, Progress, LiveOnly, AllRefsOf, Settled, Undisturbed, Retained, Forward;
    ghost var p0, s0 := store.pages, store.shape;
    ForwardSelf(store.pages, store.shape, true);
    ForwardParts(store.pages, store.shape, store.pages, store.shape, true);
    for i := 0 to |attempts|
      invariant store.Valid()
      invariant Progress(p0, s0, store.pages, store.shape)
    {
      ghost var p1, s1 := store.pages, store.shape;
      store.patience := attempts[i].patience;
      match attempts[i] {
        case Recovery(_) =>
          var recovered := store.Recover();
          RetainedAfter(p1, s1, store.pages, store.shape);
          RetainedForward(p1, s1, store.pages, store.shape, true, TermRef(0, 0));
          ForwardParts(p1, s1, store.pages, store.shape, true);
        case Compacting(mode, _) =>
          var compacted, _ := store.Compact(mode);
      }
      ProgressTrans(p0, s0, p1, s1, store.pages, store.shape);
    }
    forall t | t in s0.active
      ensures t in store.shape.active
      ensures LiveOnly(store.pages, AllRefsOf(store.pages, store.shape.active[t])) ==
                LiveOnly(p0, AllRefsOf(p0, s0.active[t]))
    {
      ProgressKeys(p0, s0, store.pages, store.shape);
      LiveStreamUnchanged(p0, s0, store.pages, store.shape, t);
    }
  }

  /**
   A second compaction with the same liveness and mode writes nothing, whether it finishes or
   is cut short: `between` and `shape` are the relation as the first one left it.
   */
  method CompactTwice(store: Store, mode: Mode)
    returns (first: Result<CompactStats, Error>, second: Result<CompactStats, Error>, ghost between: Pages,
        ghost shape: Shape)
    requires store.Valid()
    modifies store
    ensures store.Valid()
    ensures Progress(old(store.pages), old(store.shape), between, shape)
    ensures first.Ok? ==> Settled(between, shape, mode == DirectTid) && store.pages == between && store.shape == shape
    ensures first.Ok? && second.Ok? ==> second.value == NO_WORK
  {
    hide Good, Progress, LiveOnly, AllRefsOf, Settled, Reachable;
    ghost var done;
    first, done := store.Compact(mode);
    between, shape := store.pages, store.shape;
    second, done := store.Compact(mode);
  }
}
