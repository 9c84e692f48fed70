/**
 Boolean evaluation inside one segment group.

 A group covers 256 heap pages. A bitmap maps each page it has a payload for to the set of
 its offsets; an absent page is empty, and a liveness bitmap may keep a page whose offsets
 were all retired. A machine word of mask bits is modelled as the set of its bits.
 */
module GroupedQuery {
  import opened Outcomes

  const GROUP_PAGES: nat := 256
  const MAX_NODES: nat := 64

  datatype Error = Limit | InvalidParameters | InvalidState

  type Bitmap = map<nat, set<nat>>

  /** A topologically ordered program; `All` and `Not` are relative to live membership. */
  datatype Node =
    | Term(term: nat)
    | All
    | And(left: nat, right: nat)
    | Or(left: nat, right: nat)
    | Difference(left: nat, right: nat)
    | Not(child: nat)

  /** Live membership and term postings of one immutable generation. */
  datatype Segment = Segment(base: nat, live: Bitmap, terms: seq<Bitmap>)

  function Offsets(b: Bitmap, page: nat): set<nat> {
    if page in b then b[page] else {}
  }

  predicate PagesInRange(b: Bitmap) {
    forall page | page in b :: page < GROUP_PAGES
  }

  predicate NodeOk(node: Node, index: nat, terms: nat) {
    match node
    case Term(t) => t < terms
    case All => true
    case Not(c) => c < index
    case And(l, r) => l < index && r < index
    case Or(l, r) => l < index && r < index
    case Difference(l, r) => l < index && r < index
  }

  predicate WellFormed(program: seq<Node>, terms: nat) {
    forall i | 0 <= i < |program| :: NodeOk(program[i], i, terms)
  }

  predicate Runnable(program: seq<Node>, terms: nat) {
    0 < |program| <= MAX_NODES && terms <= MAX_NODES && WellFormed(program, terms)
  }

  // ----- reference semantics: one offset at a time -----

  predicate Holds(terms: seq<Bitmap>, program: seq<Node>, n: nat, page: nat, offset: nat)
    requires n < |program| && WellFormed(program, |terms|)
    decreases n
  {
    assert NodeOk(program[n], n, |terms|);
    match program[n]
    case Term(t) => offset in Offsets(terms[t], page)
    case All => true
    case Not(c) => !Holds(terms, program, c, page, offset)
    case And(l, r) => Holds(terms, program, l, page, offset) && Holds(terms, program, r, page, offset)
    case Or(l, r) => Holds(terms, program, l, page, offset) || Holds(terms, program, r, page, offset)
    case Difference(l, r) => Holds(terms, program, l, page, offset) && !Holds(terms, program, r, page, offset)
  }

  /** The live offsets of one page that satisfy node `n`. */
  function Answer(seg: Segment, program: seq<Node>, n: nat, page: nat): (r: set<nat>)
    requires n < |program| && WellFormed(program, |seg.terms|)
    ensures forall o :: o in r <==> o in Offsets(seg.live, page) && Holds(seg.terms, program, n, page, o)
  {
    set o | o in Offsets(seg.live, page) && Holds(seg.terms, program, n, page, o)
  }

  function PageEmission(seg: Segment, program: seq<Node>, page: nat): (nat, set<nat>)
    requires program != [] && WellFormed(program, |seg.terms|)
  {
    (seg.base + page, Answer(seg, program, |program| - 1, page))
  }

  /** The nonempty page answers below `limit`, in ascending heap order. */
  function Emissions(seg: Segment, program: seq<Node>, limit: nat): seq<(nat, set<nat>)>
    requires program != [] && WellFormed(program, |seg.terms|)
  {
    if limit == 0 then []
    else
      var rest := Emissions(seg, program, limit - 1);
      var page := PageEmission(seg, program, limit - 1);
      if page.1 == {} then rest else rest + [page]
  }

  // ----- page summaries -----

  /** Pages that may hold a match of node `n`, from summaries alone. */
  function Candidates(live: set<nat>, terms: seq<set<nat>>, program: seq<Node>, n: nat): (r: set<nat>)
    requires n < |program| && WellFormed(program, |terms|)
    ensures r <= live
    decreases n
  {
    assert NodeOk(program[n], n, |terms|);
    match program[n]
    case Term(t) => terms[t] * live
    case All => live
    case Not(_) => live
    case And(l, r) => Candidates(live, terms, program, l) * Candidates(live, terms, program, r)
    case Or(l, r) => Candidates(live, terms, program, l) + Candidates(live, terms, program, r)
    // distinct offsets may share a page, so summaries cannot be subtracted
    case Difference(l, _) => Candidates(live, terms, program, l)
  }

  function Summaries(seg: Segment): (r: seq<set<nat>>)
    ensures |r| == |seg.terms|
    ensures forall t | 0 <= t < |r| :: r[t] == seg.terms[t].Keys
  {
    seq(|seg.terms|, t requires 0 <= t < |seg.terms| => seg.terms[t].Keys)
  }

  /** Pruning is sound: a page outside the summary holds no live match. */
  lemma {:induction false} PrunedPagesAreEmpty(seg: Segment, program: seq<Node>, n: nat, page: nat)
    requires n < |program| && WellFormed(program, |seg.terms|)
    requires page !in Candidates(seg.live.Keys, Summaries(seg), program, n)
    ensures Answer(seg, program, n, page) == {}
    decreases n
  {
    assert NodeOk(program[n], n, |seg.terms|);
    match program[n]
    case Term(t) =>
    case All =>
    case Not(_) =>
    case And(l, r) =>
      if page !in Candidates(seg.live.Keys, Summaries(seg), program, l) {
        PrunedPagesAreEmpty(seg, program, l, page);
        assert forall o :: o !in Answer(seg, program, l, page);
      } else {
        PrunedPagesAreEmpty(seg, program, r, page);
        assert forall o :: o !in Answer(seg, program, r, page);
      }
    case Or(l, r) =>
      PrunedPagesAreEmpty(seg, program, l, page);
      PrunedPagesAreEmpty(seg, program, r, page);
      assert forall o :: o !in Answer(seg, program, l, page) && o !in Answer(seg, program, r, page);
    case Difference(l, _) =>
      PrunedPagesAreEmpty(seg, program, l, page);
      assert forall o :: o !in Answer(seg, program, l, page);
  }

  /**
   Whether page summaries leave room for a match on one page: for a term if they list the
   page, for `All` and a complement always, for a difference if its left side has room.
   */
  predicate PageMay(terms: seq<set<nat>>, program: seq<Node>, n: nat, page: nat)
    requires n < |program| && WellFormed(program, |terms|)
    decreases n
  {
    assert NodeOk(program[n], n, |terms|);
    match program[n]
    case Term(t) => page in terms[t]
    case All => true
    case Not(_) => true
    case And(l, r) => PageMay(terms, program, l, page) && PageMay(terms, program, r, page)
    case Or(l, r) => PageMay(terms, program, l, page) || PageMay(terms, program, r, page)
    case Difference(l, _) => PageMay(terms, program, l, page)
  }

  /** The summary of a node lists exactly the live pages with room for a match. */
  lemma {:induction false} CandidatesMay(live: set<nat>, terms: seq<set<nat>>, program: seq<Node>, n: nat, page: nat)
    requires n < |program| && WellFormed(program, |terms|)
    ensures page in Candidates(live, terms, program, n) <==> page in live && PageMay(terms, program, n, page)
    decreases n
  {
    assert NodeOk(program[n], n, |terms|);
    match program[n]
    case Term(_) =>
    case All =>
    case Not(_) =>
    case And(l, r) =>
      CandidatesMay(live, terms, program, l, page);
      CandidatesMay(live, terms, program, r, page);
    case Or(l, r) =>
      CandidatesMay(live, terms, program, l, page);
      CandidatesMay(live, terms, program, r, page);
    case Difference(l, _) =>
      CandidatesMay(live, terms, program, l, page);
  }

  /** Terms, conjunctions, disjunctions and `All` only, up to node `n`. */
  predicate Monotone(program: seq<Node>, n: nat) {
    forall i | 0 <= i <= n && i < |program| :: !program[i].Not? && !program[i].Difference?
  }

  /** `seg` has exactly the given page summaries. */
  ghost predicate HasSummaries(seg: Segment, live: set<nat>, terms: seq<set<nat>>) {
    && seg.live.Keys == live && |seg.terms| == |terms|
    && forall t | 0 <= t < |terms| :: seg.terms[t].Keys == terms[t]
  }

  function OneOffset(pages: set<nat>): Bitmap {
    map page | page in pages :: {0}
  }

  /** A segment with one member on every page, holding each term wherever its summary allows. */
  function Fullest(live: set<nat>, terms: seq<set<nat>>): (r: Segment)
    ensures |r.terms| == |terms|
  {
    Segment(0, OneOffset(live), seq(|terms|, t requires 0 <= t < |terms| => OneOffset(terms[t])))
  }

  lemma {:induction false} FullestHolds(live: set<nat>, terms: seq<set<nat>>, program: seq<Node>, n: nat, page: nat)
    requires n < |program| && WellFormed(program, |terms|) && Monotone(program, n)
    ensures Holds(Fullest(live, terms).terms, program, n, page, 0) == PageMay(terms, program, n, page)
    decreases n
  {
    assert NodeOk(program[n], n, |terms|);
    match program[n]
    case Term(_) =>
    case All =>
    case And(l, r) =>
      FullestHolds(live, terms, program, l, page);
      FullestHolds(live, terms, program, r, page);
    case Or(l, r) =>
      FullestHolds(live, terms, program, l, page);
      FullestHolds(live, terms, program, r, page);
  }

  /** Some segment with these summaries has a live match of node `n` on the page. */
  ghost predicate CanMatch(live: set<nat>, terms: seq<set<nat>>, program: seq<Node>, n: nat, page: nat)
    requires n < |program| && WellFormed(program, |terms|)
  {
    exists seg: Segment :: HasSummaries(seg, live, terms) && Answer(seg, program, n, page) != {}
  }

  /**
   No summary could be smaller: it lists every page that can match in some segment with
   these page summaries, and without complements and differences it lists no other page.
   */
  lemma CandidatesAreTight(live: set<nat>, terms: seq<set<nat>>, program: seq<Node>, n: nat, page: nat)
    requires n < |program| && WellFormed(program, |terms|)
    ensures CanMatch(live, terms, program, n, page) ==> page in Candidates(live, terms, program, n)
    ensures Monotone(program, n) ==>
              (CanMatch(live, terms, program, n, page) <==> page in Candidates(live, terms, program, n))
  {
    hide Candidates, Holds;
    if CanMatch(live, terms, program, n, page) {
      var seg :| HasSummaries(seg, live, terms) && Answer(seg, program, n, page) != {};
      assert Summaries(seg) == terms;
      if page !in Candidates(live, terms, program, n) {
        PrunedPagesAreEmpty(seg, program, n, page);
      }
    }
    CandidatesMay(live, terms, program, n, page);
    if Monotone(program, n) && page in Candidates(live, terms, program, n) {
      FullestHolds(live, terms, program, n, page);
      assert HasSummaries(Fullest(live, terms), live, terms);
      assert 0 in Answer(Fullest(live, terms), program, n, page);
    }
  }

  /** One summary per node, each listing exactly the live pages with room for a match. */
  ghost predicate ExactSummaries(pages: seq<set<nat>>, live: set<nat>, terms: seq<set<nat>>, program: seq<Node>)
    requires WellFormed(program, |terms|)
  {
    && |pages| == |program|
    && forall n, page: nat | 0 <= n < |pages| ::
         page in pages[n] <==> page in live && PageMay(terms, program, n, page)
  }

  // ----- demand -----

  predicate IsChild(node: Node, c: nat) {
    match node
    case Term(_) => false
    case All => false
    case Not(k) => c == k
    case And(l, r) => c == l || c == r
    case Or(l, r) => c == l || c == r
    case Difference(l, r) => c == l || c == r
  }

  /** Node `p` is evaluated on the page and asks for node `c`. */
  ghost predicate Asks(program: seq<Node>, cand: seq<set<nat>>, page: nat, p: nat, c: nat)
    requires |program| == |cand|
  {
    p < |program| && page in cand[p] && IsChild(program[p], c)
  }

  /** Node `n` is needed on a page: it is the root, or a needed candidate parent asks for it. */
  ghost predicate Demanded(program: seq<Node>, cand: seq<set<nat>>, page: nat, n: nat)
    requires |program| == |cand|
    decreases |program| - n
  {
    n < |program|
    && (n == |program| - 1
        || exists p :: n < p < |program| && Asks(program, cand, page, p, n) && Demanded(program, cand, page, p))
  }

  /** Demand as known once every node from `from` on was visited. */
  ghost predicate DemandedFrom(program: seq<Node>, cand: seq<set<nat>>, page: nat, from: nat, n: nat)
    requires |program| == |cand|
  {
    n < |program|
    && (n == |program| - 1
        || exists p :: from <= p < |program| && n < p && Asks(program, cand, page, p, n) &&
             Demanded(program, cand, page, p))
  }

  lemma DemandSettles(program: seq<Node>, cand: seq<set<nat>>, page: nat, from: nat, n: nat)
    requires |program| == |cand| && from <= n + 1
    ensures DemandedFrom(program, cand, page, from, n) <==> Demanded(program, cand, page, n)
  {
  }

  /** Visiting one more node adds its children exactly when it is needed and a candidate. */
  lemma DemandStep(program: seq<Node>, cand: seq<set<nat>>, page: nat, i: nat, n: nat, terms: nat)
    requires |program| == |cand| && i < |program| && WellFormed(program, terms)
    ensures DemandedFrom(program, cand, page, i, n) <==>
              || DemandedFrom(program, cand, page, i + 1, n)
              || (n < |program| && Demanded(program, cand, page, i) && Asks(program, cand, page, i, n))
  {
    assert NodeOk(program[i], i, terms);
    if DemandedFrom(program, cand, page, i, n) && !DemandedFrom(program, cand, page, i + 1, n) {
      var p :| i <= p < |program| && n < p && Asks(program, cand, page, p, n) && Demanded(program, cand, page, p);
      assert p == i;
    }
    if n < |program| && Demanded(program, cand, page, i) && Asks(program, cand, page, i, n) {
      assert i <= i < |program| && n < i;
    }
  }

  lemma NoDemandYet(program: seq<Node>, cand: seq<set<nat>>, page: nat, n: nat)
    requires |program| == |cand| && program != []
    ensures DemandedFrom(program, cand, page, |program|, n) <==> n == |program| - 1
  {
  }

  // ----- the program checks -----

  method ValidateProgram(terms: nat, program: seq<Node>) returns (r: Result<(), Error>)
    ensures r.Ok? <==> Runnable(program, terms)
    ensures r == Err(Limit) <==> |program| == 0 || |program| > MAX_NODES || terms > MAX_NODES
    ensures r.Err? ==> r.error != InvalidState
  {
    if |program| == 0 || |program| > MAX_NODES || terms > MAX_NODES {
      return Err(Limit);
    }
    for i := 0 to |program|
      invariant forall k | 0 <= k < i :: NodeOk(program[k], k, terms)
    {
      if !NodeOk(program[i], i, terms) {
        return Err(InvalidParameters);
      }
    }
    r := Ok(());
  }

  /** Caller-owned scratch, reused across segments and pages. */
  class Scratch {
    const pages: array<set<nat>>
    const offsets: array<set<nat>>

    constructor ()
      ensures pages.Length == offsets.Length == MAX_NODES
      ensures fresh(pages) && fresh(offsets) && pages != offsets
    {
      pages := new set<nat>[MAX_NODES](_ => {});
      offsets := new set<nat>[MAX_NODES](_ => {});
    }

    ghost predicate Valid() {
      pages.Length == offsets.Length == MAX_NODES && pages != offsets
    }
  }

  /** The candidate summaries of every node, as a sequence. */
  function AllCandidates(live: set<nat>, terms: seq<set<nat>>, program: seq<Node>): (r: seq<set<nat>>)
    requires WellFormed(program, |terms|)
    ensures |r| == |program|
    ensures forall n | 0 <= n < |program| :: r[n] == Candidates(live, terms, program, n)
  {
    seq(|program|, n requires 0 <= n < |program| => Candidates(live, terms, program, n))
  }

  /** There is one sequence of exact summaries, and the source's is it. */
  lemma AllCandidatesExact(live: set<nat>, terms: seq<set<nat>>, program: seq<Node>)
    requires WellFormed(program, |terms|)
    ensures ExactSummaries(AllCandidates(live, terms, program), live, terms, program)
    ensures forall pages | ExactSummaries(pages, live, terms, program) :: pages == AllCandidates(live, terms, program)
  {
    hide Candidates, PageMay;
    var all := AllCandidates(live, terms, program);
    forall n, page: nat | 0 <= n < |all|
      ensures page in all[n] <==> page in live && PageMay(terms, program, n, page)
    {
      CandidatesMay(live, terms, program, n, page);
    }
    forall pages | ExactSummaries(pages, live, terms, program) ensures pages == all {
      forall n | 0 <= n < |all| ensures pages[n] == all[n] {
        forall page: nat ensures page in pages[n] <==> page in all[n] {
          CandidatesMay(live, terms, program, n, page);
          assert page in pages[n] <==> page in live && PageMay(terms, program, n, page);
        }
      }
    }
  }

  /** Fills the page summaries bottom-up, whatever the scratch held before. */
  method FillPages(live: set<nat>, terms: seq<set<nat>>, program: seq<Node>, pages: array<set<nat>>)
    requires Runnable(program, |terms|) && pages.Length == MAX_NODES
    modifies pages
    ensures pages[..|program|] == AllCandidates(live, terms, program)
    ensures ExactSummaries(pages[..|program|], live, terms, program)
  {
    for i := 0 to |program|
      invariant forall n | 0 <= n < i :: pages[n] == Candidates(live, terms, program, n)
    {
      assert NodeOk(program[i], i, |terms|);
      match program[i] {
        case Term(t) => pages[i] := terms[t] * live * live;
        case All => pages[i] := live;
        case Not(_) => pages[i] := live;
        case And(l, r) => pages[i] := pages[l] * pages[r] * live;
        case Or(l, r) => pages[i] := (pages[l] + pages[r]) * live;
        case Difference(l, r) => pages[i] := pages[l] * live;
      }
      assert pages[i] == Candidates(live, terms, program, i);
    }
    AllCandidatesExact(live, terms, program);
  }

  /** The nodes one page needs, by a single backward pass. */
  method Dependencies(program: seq<Node>, pages: array<set<nat>>, page: nat, ghost terms: nat)
      returns (needed: set<nat>)
    requires Runnable(program, terms) && pages.Length == MAX_NODES
    ensures forall n :: n in needed <==> Demanded(program, pages[..|program|], page, n)
  {
    ghost var cand := pages[..|program|];
    needed := {|program| - 1};
    forall n: nat ensures n in needed <==> DemandedFrom(program, cand, page, |program|, n) {
      NoDemandYet(program, cand, page, n);
    }
    for i := |program| downto 0
      invariant forall n :: n in needed <==> DemandedFrom(program, cand, page, i, n)
    {
      assert NodeOk(program[i], i, terms);
      ghost var before := needed;
      DemandSettles(program, cand, page, i + 1, i);
      if i in needed && page in pages[i] {
        match program[i] {
          case Term(_) =>
          case All =>
          case Not(c) => needed := needed + {c};
          case And(l, r) => needed := needed + {l, r};
          case Or(l, r) => needed := needed + {l, r};
          case Difference(l, r) => needed := needed + {l, r};
        }
      }
      forall n: nat ensures n in needed <==> DemandedFrom(program, cand, page, i, n) {
        DemandStep(program, cand, page, i, n, terms);
        assert n in needed <==> n in before || (i in before && page in cand[i] && IsChild(program[i], n));
      }
    }
    forall n: nat ensures n in needed <==> Demanded(program, cand, page, n) {
      DemandSettles(program, cand, page, 0, n);
    }
  }

  /** The terms some needed candidate node reads on one page. */
  ghost function TermsOnPage(program: seq<Node>, cand: seq<set<nat>>, page: nat): set<nat>
    requires |program| == |cand|
  {
    set n | 0 <= n < |program| && program[n].Term? && page in cand[n] && Demanded(program, cand, page, n) ::
        program[n].term
  }

  /** One node's offsets from its children's, masked by liveness. */
  function Combine(seg: Segment, node: Node, page: nat, offsets: seq<set<nat>>): set<nat>
    requires NodeOk(node, |offsets|, |seg.terms|)
  {
    var live := Offsets(seg.live, page);
    match node
    case Term(t) => Offsets(seg.terms[t], page) * live
    case All => live
    case Not(c) => (live - offsets[c]) * live
    case And(l, r) => offsets[l] * offsets[r] * live
    case Or(l, r) => (offsets[l] + offsets[r]) * live
    case Difference(l, r) => (offsets[l] - offsets[r]) * live
  }

  /** Combining exact child answers gives the exact answer. */
  lemma CombineIsExact(seg: Segment, program: seq<Node>, n: nat, page: nat, offsets: seq<set<nat>>)
    requires n == |offsets| < |program| && WellFormed(program, |seg.terms|)
    requires forall c | 0 <= c < n && IsChild(program[n], c) :: offsets[c] == Answer(seg, program, c, page)
    ensures NodeOk(program[n], n, |seg.terms|)
    ensures Combine(seg, program[n], page, offsets) == Answer(seg, program, n, page)
  {
    assert NodeOk(program[n], n, |seg.terms|);
    match program[n]
    case Term(t) =>
    case All =>
    case Not(c) => assert IsChild(program[n], c);
    case And(l, r) => assert IsChild(program[n], l) && IsChild(program[n], r);
    case Or(l, r) => assert IsChild(program[n], l) && IsChild(program[n], r);
    case Difference(l, r) => assert IsChild(program[n], l) && IsChild(program[n], r);
  }

  /**
   Evaluates the needed nodes of one page. Slots left over from earlier pages are never
   read: the result is exact for any initial scratch. `decoded` lists the terms that were read.
   */
  method EvaluatePage(seg: Segment, program: seq<Node>, scratch: Scratch, page: nat)
      returns (result: set<nat>, ghost decoded: set<nat>)
    requires scratch.Valid() && Runnable(program, |seg.terms|)
    requires scratch.pages[..|program|] == AllCandidates(seg.live.Keys, Summaries(seg), program)
    modifies scratch.offsets
    ensures result == Answer(seg, program, |program| - 1, page)
    ensures decoded == TermsOnPage(program, scratch.pages[..|program|], page)
  {
    var pages, offsets := scratch.pages, scratch.offsets;
    ghost var cand := pages[..|program|];
    var needed := Dependencies(program, pages, page, |seg.terms|);
    decoded := {};
    for i := 0 to |program|
      invariant pages[..|program|] == cand
      invariant forall n | 0 <= n < i && n in needed :: offsets[n] == Answer(seg, program, n, page)
      invariant decoded == set n | 0 <= n < i && program[n].Term? && page in cand[n] &&
                  Demanded(program, cand, page, n) :: program[n].term
    {
      assert NodeOk(program[i], i, |seg.terms|);
      assert cand[i] == Candidates(seg.live.Keys, Summaries(seg), program, i);
      if i in needed {
        if page !in pages[i] {
          PrunedPagesAreEmpty(seg, program, i, page);
          offsets[i] := {};
        } else {
          ChildrenAreNeeded(program, cand, page, i, |seg.terms|);
          CombineIsExact(seg, program, i, page, offsets[..i]);
          if program[i].Term? {
            decoded := decoded + {program[i].term};
          }
          offsets[i] := Combine(seg, program[i], page, offsets[..i]);
        }
      }
    }
    result := offsets[|program| - 1];
  }

  lemma ChildrenAreNeeded(program: seq<Node>, cand: seq<set<nat>>, page: nat, n: nat, terms: nat)
    requires |program| == |cand| && n < |program| && WellFormed(program, terms)
    requires Demanded(program, cand, page, n) && page in cand[n]
    ensures forall c | 0 <= c < n && IsChild(program[n], c) :: Demanded(program, cand, page, c)
  {
    forall c | 0 <= c < n && IsChild(program[n], c)
      ensures Demanded(program, cand, page, c)
    {
      assert Asks(program, cand, page, n, c);
    }
  }

  datatype QueryStats = QueryStats(candidatePages: nat, livePages: nat, emittedTids: nat)

  ghost function Below(pages: set<nat>, limit: nat): set<nat> {
    set page | page in pages && page < limit
  }

  /** The pages of a set on which something is live. */
  ghost function LiveOn(seg: Segment, pages: set<nat>): set<nat> {
    set page | page in pages && Offsets(seg.live, page) != {}
  }

  lemma BelowGrows(pages: set<nat>, limit: nat)
    ensures |Below(pages, limit + 1)| == |Below(pages, limit)| + if limit in pages then 1 else 0
  {
    if limit in pages {
      assert Below(pages, limit + 1) == Below(pages, limit) + {limit};
    } else {
      assert Below(pages, limit + 1) == Below(pages, limit);
    }
  }

  function CountTids(emitted: seq<(nat, set<nat>)>): nat {
    if emitted == [] then 0 else CountTids(emitted[..|emitted| - 1]) + |emitted[|emitted| - 1].1|
  }

  /** The terms that must be fetched before evaluation: demand on any candidate page. */
  ghost predicate TermNeeded(program: seq<Node>, cand: seq<set<nat>>, t: nat)
    requires |program| == |cand| && program != []
  {
    exists page: nat, n: nat :: TermRead(program, cand, page, n) && program[n].term == t
  }

  ghost predicate TermRead(program: seq<Node>, cand: seq<set<nat>>, page: nat, n: nat)
    requires |program| == |cand| && program != []
  {
    && page in cand[|program| - 1]
    && n < |program| && program[n].Term? && page in cand[n] && Demanded(program, cand, page, n)
  }

  /**
   Emits exactly the nonempty page answers, in ascending block order, and reads only terms
   that summary demand lists.
   */
  method EvaluateSource(seg: Segment, program: seq<Node>, scratch: Scratch)
    returns (r: Result<QueryStats, Error>, emitted: seq<(nat, set<nat>)>, ghost decoded: set<nat>)
    requires scratch.Valid() && PagesInRange(seg.live)
    modifies scratch.pages, scratch.offsets
    ensures r.Ok? <==> Runnable(program, |seg.terms|)
    ensures r.Err? ==> emitted == []
    ensures r.Ok? ==> emitted == Emissions(seg, program, GROUP_PAGES) && r.value.emittedTids == CountTids(emitted)
    ensures r.Ok? ==>
              var pages := Candidates(seg.live.Keys, Summaries(seg), program, |program| - 1);
              r.value.candidatePages == |pages| && r.value.livePages == |LiveOn(seg, pages)|
    ensures r.Ok? ==>
              forall t | t in decoded :: TermNeeded(program, AllCandidates(seg.live.Keys, Summaries(seg), program), t)
  {
    emitted, decoded := [], {};
    var valid := ValidateProgram(|seg.terms|, program);
    if valid.Err? {
      return Err(valid.error), emitted, decoded;
    }
    FillPages(seg.live.Keys, Summaries(seg), program, scratch.pages);
    ghost var cand := AllCandidates(seg.live.Keys, Summaries(seg), program);
    var root := |program| - 1;
    var pages := scratch.pages[root];
    var stats := QueryStats(0, 0, 0);
    for page := 0 to GROUP_PAGES
      invariant scratch.pages[..|program|] == cand
      invariant emitted == Emissions(seg, program, page)
      invariant stats.emittedTids == CountTids(emitted)
      invariant stats.candidatePages == |Below(pages, page)|
      invariant stats.livePages == |Below(LiveOn(seg, pages), page)|
      invariant forall t | t in decoded :: TermNeeded(program, cand, t)
    {
      BelowGrows(pages, page);
      BelowGrows(LiveOn(seg, pages), page);
      if page !in pages {
        PrunedPagesAreEmpty(seg, program, root, page);
      } else {
        stats := stats.(candidatePages := stats.candidatePages + 1);
        if Offsets(seg.live, page) == {} {
          assert Answer(seg, program, root, page) == {};
        } else {
          stats := stats.(livePages := stats.livePages + 1);
          ghost var read;
          var result;
          result, read := EvaluatePage(seg, program, scratch, page);
          forall t | t in read
            ensures TermNeeded(program, cand, t)
          {
            var n :| 0 <= n < |program| && program[n].Term? && page in cand[n] && Demanded(program, cand, page, n) &&
                program[n].term == t;
            assert TermRead(program, cand, page, n);
          }
          decoded := decoded + read;
          if result != {} {
            emitted := emitted + [(seg.base + page, result)];
            stats := stats.(emittedTids := stats.emittedTids + |result|);
            assert emitted[..|emitted| - 1] == Emissions(seg, program, page);
          }
        }
      }
    }
    assert Below(pages, GROUP_PAGES) == pages;
    assert Below(LiveOn(seg, pages), GROUP_PAGES) == LiveOn(seg, pages);
    r := Ok(stats);
  }

  /** Every emission is a page's exact nonempty answer, and every such page is emitted. */
  lemma {:induction false} EmissionsAreExact(seg: Segment, program: seq<Node>, limit: nat)
    requires program != [] && WellFormed(program, |seg.terms|)
    ensures forall e | e in Emissions(seg, program, limit) ::
              && seg.base <= e.0 < seg.base + limit
              && e == PageEmission(seg, program, e.0 - seg.base) && e.1 != {}
    ensures forall page: nat | page < limit && PageEmission(seg, program, page).1 != {} ::
              PageEmission(seg, program, page) in Emissions(seg, program, limit)
    ensures forall i, j | 0 <= i < j < |Emissions(seg, program, limit)| ::
              Emissions(seg, program, limit)[i].0 < Emissions(seg, program, limit)[j].0
    decreases limit
  {
    if limit > 0 {
      EmissionsAreExact(seg, program, limit - 1);
    }
  }

  // ----- demand by masks -----

  /** One node's masks spread to its children, for all pages at once. */
  lemma MaskStep(program: seq<Node>, cand: seq<set<nat>>, root: set<nat>, i: nat, n: nat, terms: nat, before: set<nat>,
      mine: set<nat>, after: set<nat>)
    requires |program| == |cand| && i < |program| && n < |program| && WellFormed(program, terms)
    requires forall page :: page in before <==> page in root && DemandedFrom(program, cand, page, i + 1, n)
    requires forall page :: page in mine <==> page in root && Demanded(program, cand, page, i)
    requires forall page :: page in after <==>
               page in before || (IsChild(program[i], n) && page in mine && page in cand[i])
    ensures forall page :: page in after <==> page in root && DemandedFrom(program, cand, page, i, n)
  {
    forall page: nat
      ensures page in after <==> page in root && DemandedFrom(program, cand, page, i, n)
    {
      DemandStep(program, cand, page, i, n, terms);
    }
  }

  /** `wanted` lists the terms read by the nodes from `i` on. */
  ghost predicate WantedFrom(program: seq<Node>, cand: seq<set<nat>>, i: nat, wanted: set<nat>)
    requires |program| == |cand| && program != []
  {
    forall t :: t in wanted <==>
        exists page: nat, n: nat :: i <= n && TermRead(program, cand, page, n) && program[n].term == t
  }

  lemma WantedStep(program: seq<Node>, cand: seq<set<nat>>, i: nat, wanted: set<nat>, pages: set<nat>,
      demanded: set<nat>, active: set<nat>)
    requires |program| == |cand| && i < |program| && pages == cand[|program| - 1]
    requires forall page: nat :: page in demanded <==> page in pages && Demanded(program, cand, page, i)
    requires active == demanded * cand[i]
    requires WantedFrom(program, cand, i + 1, wanted)
    ensures WantedFrom(program, cand, i,
              if program[i].Term? && active != {} then wanted + {program[i].term} else wanted)
  {
    hide Demanded;
    var after := if program[i].Term? && active != {} then wanted + {program[i].term} else wanted;
    forall t
      ensures t in after <==>
                exists page: nat, n: nat :: i <= n && TermRead(program, cand, page, n) && program[n].term == t
    {
      if t in after && t !in wanted {
        var page :| page in active;
        assert TermRead(program, cand, page, i);
      }
      if page: nat, n: nat :| i <= n && TermRead(program, cand, page, n) && program[n].term == t {
        if n == i {
          assert page in active;
        }
      }
    }
  }

  lemma NothingWanted(program: seq<Node>, cand: seq<set<nat>>)
    requires |program| == |cand| && program != []
    ensures WantedFrom(program, cand, |program|, {})
  {
  }

  lemma WantedIsNeeded(program: seq<Node>, cand: seq<set<nat>>, wanted: set<nat>)
    requires |program| == |cand| && program != [] && WantedFrom(program, cand, 0, wanted)
    ensures forall t :: t in wanted <==> TermNeeded(program, cand, t)
  {
    hide Demanded;
    forall t
      ensures t in wanted <==> TermNeeded(program, cand, t)
    {
      if t in wanted {
        var page: nat, n: nat :| TermRead(program, cand, page, n) && program[n].term == t;
      }
    }
  }

  /** The backward mask pass: exactly the union of the page-by-page demands. */
  method NeededTerms(program: seq<Node>, live: set<nat>, terms: seq<set<nat>>, scratch: Scratch)
    returns (r: Result<(set<nat>, set<nat>), Error>)
    requires scratch.Valid()
    modifies scratch.pages
    ensures r.Ok? <==> Runnable(program, |terms|)
    ensures r.Ok? ==> r.value.0 == Candidates(live, terms, program, |program| - 1)
    ensures r.Ok? ==>
              forall page: nat :: page in r.value.0 <==> page in live && PageMay(terms, program, |program| - 1, page)
    ensures r.Ok? ==>
              forall t, cand | ExactSummaries(cand, live, terms, program) :: t in r.value.1 <==>
                TermNeeded(program, cand, t)
    ensures r.Ok? ==> forall t :: t in r.value.1 <==> TermNeeded(program, AllCandidates(live, terms, program), t)
  {
    hide Demanded, DemandedFrom, Candidates, WantedFrom, TermRead, PageMay, ExactSummaries;
    var valid := ValidateProgram(|terms|, program);
    if valid.Err? {
      return Err(valid.error);
    }
    FillPages(live, terms, program, scratch.pages);
    ghost var cand := AllCandidates(live, terms, program);
    var root := |program| - 1;
    var pages := scratch.pages[root];
    var demanded := new set<nat>[MAX_NODES](_ => {});
    demanded[root] := pages;
    var wanted: set<nat> := {};
    forall n, page: nat | 0 <= n < |program|
      ensures page in demanded[n] <==> page in pages && DemandedFrom(program, cand, page, |program|, n)
    {
      NoDemandYet(program, cand, page, n);
    }
    NothingWanted(program, cand);
    for i := |program| downto 0
      invariant scratch.pages[..|program|] == cand
      invariant forall n, page: nat | 0 <= n < |program| :: page in demanded[n] <==>
                  page in pages && DemandedFrom(program, cand, page, i, n)
      invariant WantedFrom(program, cand, i, wanted)
    {
      assert NodeOk(program[i], i, |terms|);
      ghost var before := demanded[..];
      forall page: nat ensures page in before[i] <==> page in pages && Demanded(program, cand, page, i) {
        DemandSettles(program, cand, page, i + 1, i);
      }
      var active := demanded[i] * scratch.pages[i];
      WantedStep(program, cand, i, wanted, pages, before[i], active);
      match program[i] {
        case Term(t) =>
          if active != {} {
            wanted := wanted + {t};
          }
        case All =>
        case Not(c) => demanded[c] := demanded[c] + active;
        case And(l, r) => demanded[l] := demanded[l] + active; demanded[r] := demanded[r] + active;
        case Or(l, r) => demanded[l] := demanded[l] + active; demanded[r] := demanded[r] + active;
        case Difference(l, r) => demanded[l] := demanded[l] + active; demanded[r] := demanded[r] + active;
      }
      forall n | 0 <= n < |program|
        ensures forall page: nat :: page in demanded[n] <==> page in pages && DemandedFrom(program, cand, page, i, n)
      {
        MaskStep(program, cand, pages, i, n, |terms|, before[n], before[i], demanded[n]);
      }
    }
    WantedIsNeeded(program, cand, wanted);
    AllCandidatesExact(live, terms, program);
    forall page: nat ensures page in pages <==> page in live && PageMay(terms, program, root, page) {
      CandidatesMay(live, terms, program, root, page);
    }
    r := Ok((pages, wanted));
  }
}
