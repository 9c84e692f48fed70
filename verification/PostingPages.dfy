/**
 The durable pages of a mutable index and the shape every durable state keeps.

 A relation is a sequence of pages indexed by block. Posting pages are linked into chains:
 one active chain per dictionary term, one journal chain named by the metapage, and one
 list of free pages. Byte layout is abstract; every field that the compaction code reads
 or writes is a field of the page value.
 */
module PostingPages {
  import opened FiniteSets

  const NO_BLOCK: nat := 0xFFFF_FFFF
  const BUCKETS: nat := 512

  /** An owner slot qualified by its never reused incarnation. */
  datatype OwnerRef = OwnerRef(page: nat, slot: nat, incarnation: nat)

  /** A dictionary entry, named by its page and its position in that page. */
  datatype TermRef = TermRef(page: nat, index: nat)

  datatype Owner = Owner(ref: OwnerRef, root: nat, published: bool, live: bool)

  datatype Entry = Entry(bucket: nat, first: OwnerRef, head: nat, tail: nat)

  datatype PostingKind = Mutable | Sealed | Direct

  datatype Phase = Building | Retiring

  datatype Journal = NoJournal | Journal(head: nat, tail: nat, phase: Phase)

  /** `Zero` is a block that was reserved by an extension and never written. */
  datatype Page =
    | Zero
    | Meta(buckets: seq<(nat, nat)>, free: nat, journal: Journal)
    | Owners(slots: seq<Owner>)
    | Dictionary(entries: seq<Entry>, next: nat)
    | Posting(kind: PostingKind, term: TermRef, refs: seq<OwnerRef>, roots: seq<nat>, next: nat)
    | Free(next: nat)
    | Other

  type Pages = seq<Page>

  // ----- owner references -----

  /** The strict order of every posting stream: later slot and later incarnation. */
  predicate Before(a: OwnerRef, b: OwnerRef) {
    && (a.page < b.page || (a.page == b.page && a.slot < b.slot))
    && a.incarnation < b.incarnation
  }

  predicate Sorted(refs: seq<OwnerRef>) {
    forall i, j | 0 <= i < j < |refs| :: Before(refs[i], refs[j])
  }

  predicate ValidRef(r: OwnerRef) {
    && 0 < r.page < NO_BLOCK
    && r.slot < 203
    && 0 < r.incarnation < 0x1_0000_0000_0000_0000
  }

  /** The slot a reference names holds exactly that reference. */
  predicate Resolves(p: Pages, r: OwnerRef) {
    && ValidRef(r)
    && r.page < |p|
    && p[r.page].Owners?
    && r.slot < |p[r.page].slots|
    && p[r.page].slots[r.slot].ref == r
  }

  predicate Live(p: Pages, r: OwnerRef) {
    && Resolves(p, r)
    && p[r.page].slots[r.slot].live
    && p[r.page].slots[r.slot].published
  }

  function RootOf(p: Pages, r: OwnerRef): nat
    requires Resolves(p, r)
  {
    p[r.page].slots[r.slot].root
  }

  /** The references of `refs` whose owner is live, in order. */
  function LiveOnly(p: Pages, refs: seq<OwnerRef>): seq<OwnerRef> {
    if refs == [] then []
    else
      var rest := LiveOnly(p, refs[..|refs| - 1]);
      if Live(p, refs[|refs| - 1]) then rest + [refs[|refs| - 1]] else rest
  }

  // ----- page validity -----

  /** What `Page::validate` accepts, as far as the fields above go. */
  predicate PageOk(block: nat, page: Page) {
    && (page.Meta? <==> block == 0)
    && match page
       case Posting(kind, _, refs, roots, next) =>
         && next != block
         && Sorted(refs)
         && (kind != Mutable ==> refs != [])
         && (kind == Direct ==> |roots| == |refs|)
       case Dictionary(_, next) => next == NO_BLOCK || block < next
       case Free(next) => next != block
       case _ => true
  }

  // ----- chains -----

  function NextIn(bs: seq<nat>, i: nat): nat
    requires i < |bs|
  {
    if i + 1 < |bs| then bs[i + 1] else NO_BLOCK
  }

  function HeadOf(bs: seq<nat>): nat {
    if bs == [] then NO_BLOCK else bs[0]
  }

  function TailOf(bs: seq<nat>): nat {
    if bs == [] then NO_BLOCK else bs[|bs| - 1]
  }

  /** The same posting page with another successor. */
  function Relinked(page: Page, next: nat): Page
    requires page.Posting?
  {
    Posting(page.kind, page.term, page.refs, page.roots, next)
  }

  predicate PostingOf(p: Pages, t: TermRef, b: nat) {
    b < |p| && p[b].Posting? && p[b].term == t
  }

  /** `bs` lists, in link order, a terminal chain of posting pages of one term. */
  ghost predicate PostChain(p: Pages, t: TermRef, bs: seq<nat>) {
    && (forall i | 0 <= i < |bs| :: PostingOf(p, t, bs[i]))
    && (forall i {:trigger NextIn(bs, i)} | 0 <= i < |bs| :: p[bs[i]].next == NextIn(bs, i))
    && NoDuplicates(bs)
  }

  ghost predicate FreeChain(p: Pages, bs: seq<nat>) {
    && (forall i | 0 <= i < |bs| :: bs[i] < |p| && p[bs[i]].Free?)
    && (forall i {:trigger NextIn(bs, i)} | 0 <= i < |bs| :: p[bs[i]].next == NextIn(bs, i))
    && NoDuplicates(bs)
  }

  /** A bucket's dictionary pages, linked upwards from `head` to `tail`. */
  ghost predicate DictChain(p: Pages, bucket: nat, ends: (nat, nat), bs: seq<nat>) {
    && ends == (HeadOf(bs), TailOf(bs))
    && (forall i | 0 <= i < |bs| ::
          bs[i] < |p| && p[bs[i]].Dictionary?
          && (forall k | 0 <= k < |p[bs[i]].entries| :: p[bs[i]].entries[k].bucket == bucket))
    && (forall i {:trigger NextIn(bs, i)} | 0 <= i < |bs| && i + 1 < |bs| ::
          p[bs[i]].next == NextIn(bs, i) && bs[i] < NextIn(bs, i) <= TailOf(bs))
  }

  /** The owner references stored along a list of posting pages. */
  ghost function AllRefs(p: Pages, bs: seq<nat>): seq<OwnerRef>
    requires forall i | 0 <= i < |bs| :: bs[i] < |p| && p[bs[i]].Posting?
  {
    if bs == [] then [] else AllRefs(p, bs[..|bs| - 1]) + p[bs[|bs| - 1]].refs
  }

  /** What a reader collects by following links from `block`, in at most `steps` pages. */
  function Walk(p: Pages, block: nat, steps: nat): seq<nat>
    decreases steps
  {
    if steps == 0 || block >= |p| || !p[block].Posting? then []
    else [block] + Walk(p, p[block].next, steps - 1)
  }

  // ----- the durable invariant -----

  predicate IsTerm(p: Pages, t: TermRef) {
    t.page < |p| && p[t.page].Dictionary? && t.index < |p[t.page].entries|
  }

  function EntryOf(p: Pages, t: TermRef): Entry
    requires IsTerm(p, t)
  {
    p[t.page].entries[t.index]
  }

  /** Which blocks make up each chain of one durable state. */
  datatype Shape = Shape(active: map<TermRef, seq<nat>>, journal: seq<nat>, free: seq<nat>, buckets: seq<seq<nat>>)

  ghost predicate TermOk(p: Pages, t: TermRef, bs: seq<nat>) {
    && IsTerm(p, t)
    && PostChain(p, t, bs)
    && EntryOf(p, t).head == HeadOf(bs)
    && EntryOf(p, t).tail == TailOf(bs)
    && Sorted([EntryOf(p, t).first] + AllRefs(p, bs))
  }

  ghost predicate JournalOk(p: Pages, s: Shape)
    requires 0 < |p| && p[0].Meta?
  {
    if p[0].journal.NoJournal? then s.journal == []
    else
      && s.journal != []
      && p[0].journal.head == HeadOf(s.journal)
      && p[0].journal.tail == TailOf(s.journal)
      && s.journal[0] < |p| && p[s.journal[0]].Posting?
      && (var t := p[s.journal[0]].term;
          && PostChain(p, t, s.journal)
          && t in s.active
          && (forall b | b in s.journal :: b !in s.active[t]))
      && Sorted(AllRefs(p, s.journal))
  }

  ghost predicate PostingOk(p: Pages, s: Shape, b: nat)
    requires b < |p| && p[b].Posting?
  {
    && p[b].term in s.active
    && (b in s.active[p[b].term] || b in s.journal)
    && (forall i | 0 <= i < |p[b].refs| :: Resolves(p, p[b].refs[i]))
    && (p[b].kind == Direct ==>
          |p[b].roots| == |p[b].refs|
          && forall i | 0 <= i < |p[b].refs| :: p[b].roots[i] == RootOf(p, p[b].refs[i]))
  }

  ghost predicate PagesOk(p: Pages) {
    forall b | 0 <= b < |p| :: PageOk(b, p[b])
  }

  ghost predicate TermsOk(p: Pages, active: map<TermRef, seq<nat>>) {
    && (forall t | t in active :: TermOk(p, t, active[t]))
    && (forall t | IsTerm(p, t) :: t in active)
  }

  ghost predicate FreeOk(p: Pages, free: seq<nat>)
    requires 0 < |p| && p[0].Meta?
  {
    && FreeChain(p, free)
    && p[0].free == HeadOf(free)
    && (forall b | 0 <= b < |p| && p[b].Free? :: b in free)
  }

  ghost predicate PostingsOk(p: Pages, s: Shape) {
    forall b | 0 <= b < |p| && p[b].Posting? :: PostingOk(p, s, b)
  }

  ghost predicate BucketsOk(p: Pages, buckets: seq<seq<nat>>)
    requires 0 < |p| && p[0].Meta?
  {
    && |p[0].buckets| == |buckets| == BUCKETS
    && (forall k | 0 <= k < BUCKETS :: DictChain(p, k, p[0].buckets[k], buckets[k]))
  }

  /**
   Every posting page belongs to exactly one chain: its own term's active chain or the
   journal; every free page is on the free list; every chain is acyclic and terminal.
   */
  ghost predicate Good(p: Pages, s: Shape) {
    && 0 < |p| <= NO_BLOCK
    && p[0].Meta?
    && PagesOk(p)
    && TermsOk(p, s.active)
    && JournalOk(p, s)
    && FreeOk(p, s.free)
    && PostingsOk(p, s)
    && BucketsOk(p, s.buckets)
  }

  // ----- lemmas about reference streams -----

  lemma {:induction false} LiveOnlyAppend(p: Pages, a: seq<OwnerRef>, b: seq<OwnerRef>)
    ensures LiveOnly(p, a + b) == LiveOnly(p, a) + LiveOnly(p, b)
    decreases |b|
  {
    if b == [] {
      assert a + b == a;
    } else {
      assert (a + b)[..|a + b| - 1] == a + b[..|b| - 1];
      LiveOnlyAppend(p, a, b[..|b| - 1]);
    }
  }

  /** Filtering keeps the order, keeps only live members, and keeps all of them. */
  lemma {:induction false} LiveOnlyMembers(p: Pages, refs: seq<OwnerRef>)
    ensures forall r :: r in LiveOnly(p, refs) <==> r in refs && Live(p, r)
    ensures |LiveOnly(p, refs)| <= |refs|
    ensures Sorted(refs) ==> Sorted(LiveOnly(p, refs))
    decreases |refs|
  {
    if refs != [] {
      var init := refs[..|refs| - 1];
      var last := refs[|refs| - 1];
      LiveOnlyMembers(p, init);
      assert refs == init + [last];
      if Sorted(refs) {
        assert forall r | r in init :: Before(r, last);
      }
    }
  }

  lemma {:induction false} LiveOnlyAll(p: Pages, refs: seq<OwnerRef>)
    requires forall i | 0 <= i < |refs| :: Live(p, refs[i])
    ensures LiveOnly(p, refs) == refs
    decreases |refs|
  {
    if refs != [] {
      LiveOnlyAll(p, refs[..|refs| - 1]);
      assert refs == refs[..|refs| - 1] + [refs[|refs| - 1]];
    }
  }

  lemma {:induction false} LiveOnlyAgrees(p: Pages, q: Pages, refs: seq<OwnerRef>)
    requires forall i | 0 <= i < |refs| :: Live(p, refs[i]) == Live(q, refs[i])
    ensures LiveOnly(p, refs) == LiveOnly(q, refs)
    decreases |refs|
  {
    if refs != [] {
      LiveOnlyAgrees(p, q, refs[..|refs| - 1]);
    }
  }

  lemma LiveOnlyIdempotent(p: Pages, refs: seq<OwnerRef>)
    ensures LiveOnly(p, LiveOnly(p, refs)) == LiveOnly(p, refs)
  {
    LiveOnlyMembers(p, refs);
    var kept := LiveOnly(p, refs);
    assert forall i | 0 <= i < |kept| :: kept[i] in kept;
    LiveOnlyAll(p, kept);
  }

  // ----- lemmas about chains -----

  lemma {:induction false} AllRefsAppend(p: Pages, a: seq<nat>, b: seq<nat>)
    requires forall i | 0 <= i < |a| :: a[i] < |p| && p[a[i]].Posting?
    requires forall i | 0 <= i < |b| :: b[i] < |p| && p[b[i]].Posting?
    ensures AllRefs(p, a + b) == AllRefs(p, a) + AllRefs(p, b)
    decreases |b|
  {
    if b == [] {
      assert a + b == a;
    } else {
      assert (a + b)[..|a + b| - 1] == a + b[..|b| - 1];
      AllRefsAppend(p, a, b[..|b| - 1]);
    }
  }

  lemma {:induction false} AllRefsFrame(p: Pages, q: Pages, bs: seq<nat>)
    requires forall i | 0 <= i < |bs| :: bs[i] < |p| && p[bs[i]].Posting?
    requires forall i | 0 <= i < |bs| :: bs[i] < |q| && q[bs[i]].Posting? && q[bs[i]].refs == p[bs[i]].refs
    ensures AllRefs(q, bs) == AllRefs(p, bs)
    decreases |bs|
  {
    if bs != [] {
      AllRefsFrame(p, q, bs[..|bs| - 1]);
    }
  }

  lemma {:induction false} AllRefsMember(p: Pages, bs: seq<nat>, r: OwnerRef)
    requires forall i | 0 <= i < |bs| :: bs[i] < |p| && p[bs[i]].Posting?
    requires r in AllRefs(p, bs)
    ensures exists i :: 0 <= i < |bs| && r in p[bs[i]].refs
    decreases |bs|
  {
    if r !in p[bs[|bs| - 1]].refs {
      AllRefsMember(p, bs[..|bs| - 1], r);
      var i :| 0 <= i < |bs| - 1 && r in p[bs[..|bs| - 1][i]].refs;
      assert r in p[bs[i]].refs;
    }
  }

  /** Following links from the head collects exactly the listed pages. */
  lemma {:induction false} WalkIsChain(p: Pages, t: TermRef, bs: seq<nat>, k: nat, steps: nat)
    requires |p| <= NO_BLOCK
    requires PostChain(p, t, bs)
    requires k <= |bs| && |bs| - k <= steps
    ensures Walk(p, if k < |bs| then bs[k] else NO_BLOCK, steps) == bs[k..]
    decreases |bs| - k
  {
    if k < |bs| {
      assert p[bs[k]].next == NextIn(bs, k);
      WalkIsChain(p, t, bs, k + 1, steps - 1);
      assert bs[k..] == [bs[k]] + bs[k + 1..];
    }
  }

  /** A terminal chain has fewer pages than the relation has blocks. */
  lemma ChainIsShort(p: Pages, t: TermRef, bs: seq<nat>)
    requires 0 < |p| && !p[0].Posting?
    requires PostChain(p, t, bs)
    ensures |bs| < |p|
  {
    NoDuplicatesSize(bs);
    assert ToSet(bs) <= Below(|p|) - {0};
    SubsetSize(ToSet(bs), Below(|p|) - {0});
  }

  /**
   Two finite terminal chains of one term intersect exactly when they share a tail,
   which is the overlap test of recovery.
   */
  lemma ChainsMeetAtTail(p: Pages, t: TermRef, a: seq<nat>, b: seq<nat>)
    requires |p| <= NO_BLOCK
    requires PostChain(p, t, a) && PostChain(p, t, b)
    requires a != [] && b != []
    ensures (exists x :: x in a && x in b) <==> TailOf(a) == TailOf(b)
  {
    if x :| x in a && x in b {
      var i :| 0 <= i < |a| && a[i] == x;
      var j :| 0 <= j < |b| && b[j] == x;
      SharedSuffix(p, t, a, i, b, j);
    }
    if TailOf(a) == TailOf(b) {
      assert TailOf(a) in a && TailOf(b) in b;
    }
  }

  lemma {:induction false} SharedSuffix(p: Pages, t: TermRef, a: seq<nat>, i: nat, b: seq<nat>, j: nat)
    requires |p| <= NO_BLOCK
    requires PostChain(p, t, a) && PostChain(p, t, b)
    requires i < |a| && j < |b| && a[i] == b[j]
    ensures a[i..] == b[j..]
    decreases |a| - i
  {
    assert NextIn(a, i) == NextIn(b, j);
    if i + 1 < |a| && j + 1 < |b| {
      SharedSuffix(p, t, a, i + 1, b, j + 1);
      assert a[i..] == [a[i]] + a[i + 1..];
      assert b[j..] == [b[j]] + b[j + 1..];
    }
  }
}
