/** The necessary-condition cover of a query: terms one of which every match contains. */
module CandidatePlan {
  import opened Outcomes
  import opened QueryTree
  import opened Oracle
  import opened Ordering

  datatype Plan = Empty | Universe | Terms(terms: seq<string>)

  /** Probes needed; `All` stands for the whole indexed universe. */
  datatype Probes = All | Few(n: nat)

  // ----- the cover of a tree -----

  function LeafProbes(leaf: Leaf): Probes {
    match leaf
    case Nothing => Few(0)
    case Word(_) => Few(1)
    case Phrase(terms) => Few(if terms == [] then 0 else 1)
    case Prefix(_) => All
  }

  predicate NoMore(a: Probes, b: Probes) {
    b.All? || (a.Few? && a.n <= b.n)
  }

  function Fewer(a: Probes, b: Probes): Probes {
    if NoMore(a, b) then a else b
  }

  function Both(a: Probes, b: Probes): Probes {
    if a.All? || b.All? then All else Few(a.n + b.n)
  }

  function ProbesOf(e: Expr): Probes {
    match e
    case Lit(leaf) => LeafProbes(leaf)
    case Not(_) => All
    case And(l, r) => Fewer(ProbesOf(l), ProbesOf(r))
    case Or(l, r) => Both(ProbesOf(l), ProbesOf(r))
  }

  /** The terms probed for a tree, in the order they are collected. */
  function Cover(e: Expr): seq<string> {
    if ProbesOf(e) == Few(0) then []
    else
      match e
      case Lit(Word(term)) => [term]
      case Lit(Phrase(terms)) => if terms == [] then [] else [terms[0]]
      case Lit(_) => []
      case Not(_) => []
      case And(l, r) => Cover(if NoMore(ProbesOf(l), ProbesOf(r)) then l else r)
      case Or(l, r) => Cover(l) + Cover(r)
  }

  /** As many terms as the cost says. */
  lemma {:induction false} CoverSize(e: Expr)
    ensures ProbesOf(e).Few? ==> |Cover(e)| == ProbesOf(e).n
  {
    match e
    case Lit(_) =>
    case Not(_) =>
    case And(l, r) => CoverSize(l); CoverSize(r);
    case Or(l, r) => CoverSize(l); CoverSize(r);
  }

  /** Parsed phrases have at least one term, which a matching document contains. */
  lemma PhraseHasFirst(doc: Document, terms: seq<string>)
    requires terms != [] && LeafHolds(doc, Phrase(terms))
    ensures terms[0] in doc
  {
    var start: nat :| start < |doc| && PhraseAt(doc, terms, start);
    assert doc[start..start + |terms|][0] == doc[start];
  }

  /** Phrases of a parsed query are never empty. */
  predicate PhrasesOk(e: Expr) {
    match e
    case Lit(leaf) => leaf.Phrase? ==> leaf.terms != []
    case Not(c) => PhrasesOk(c)
    case And(l, r) => PhrasesOk(l) && PhrasesOk(r)
    case Or(l, r) => PhrasesOk(l) && PhrasesOk(r)
  }

  ghost predicate Contains(doc: Document, terms: seq<string>) {
    exists t :: t in terms && t in doc
  }

  /** Whatever a query accepts contains a term of its cover; with no probes nothing is accepted. */
  lemma {:induction false} CoverIsNecessary(doc: Document, e: Expr)
    requires PhrasesOk(e) && ProbesOf(e).Few? && Matches(doc, e)
    ensures Contains(doc, Cover(e))
    decreases e
  {
    match e
    case Lit(leaf) =>
      if leaf.Phrase? {
        PhraseHasFirst(doc, leaf.terms);
        assert leaf.terms[0] in Cover(e);
      } else {
        assert leaf.Word? && leaf.term in Cover(e) && leaf.term in doc;
      }
    case And(l, r) =>
      var pick := if NoMore(ProbesOf(l), ProbesOf(r)) then l else r;
      CoverIsNecessary(doc, pick);
      NotFree(doc, e, pick);
    case Or(l, r) =>
      var pick := if Matches(doc, l) then l else r;
      CoverIsNecessary(doc, pick);
      var t :| t in Cover(pick) && t in doc;
      CoverSize(l);
      CoverSize(r);
      assert t in Cover(e);
  }

  lemma NotFree(doc: Document, e: Expr, pick: Expr)
    requires e.And? && pick == (if NoMore(ProbesOf(e.left), ProbesOf(e.right)) then e.left else e.right)
    requires Contains(doc, Cover(pick))
    ensures Contains(doc, Cover(e))
  {
    assert Cover(pick) != [];
    CoverSize(pick);
    assert Cover(e) == Cover(pick);
  }

  // ----- the covers a tree admits -----

  /**
   The ways to cover a tree: a word by itself, a phrase by its first term, an AND by either
   side and an OR by both; nothing covers a prefix or a negation.
   */
  ghost predicate Admits(e: Expr, cover: seq<string>) {
    match e
    case Lit(Nothing) => cover == []
    case Lit(Word(term)) => cover == [term]
    case Lit(Phrase(terms)) => cover == if terms == [] then [] else [terms[0]]
    case Lit(Prefix(_)) => false
    case Not(_) => false
    case And(l, r) => Admits(l, cover) || Admits(r, cover)
    case Or(l, r) => exists k | 0 <= k <= |cover| :: Admits(l, cover[..k]) && Admits(r, cover[k..])
  }

  ghost predicate Coverable(e: Expr) {
    exists cover :: Admits(e, cover)
  }

  /** No admitted cover has fewer terms. */
  ghost predicate Least(e: Expr, cover: seq<string>) {
    Admits(e, cover) && forall other | Admits(e, other) :: |cover| <= |other|
  }

  lemma {:induction false} CoverIsAdmitted(e: Expr)
    requires ProbesOf(e).Few?
    ensures Admits(e, Cover(e))
  {
    match e
    case Lit(_) =>
    case And(l, r) => CoverIsAdmitted(if NoMore(ProbesOf(l), ProbesOf(r)) then l else r);
    case Or(l, r) =>
      CoverIsAdmitted(l);
      CoverIsAdmitted(r);
      var k := |Cover(l)|;
      assert Cover(e)[..k] == Cover(l) && Cover(e)[k..] == Cover(r);
  }

  lemma {:induction false} AdmittedIsNoSmaller(e: Expr, cover: seq<string>)
    requires Admits(e, cover)
    ensures ProbesOf(e).Few? && ProbesOf(e).n <= |cover|
  {
    match e
    case Lit(_) =>
    case And(l, r) => AdmittedIsNoSmaller(if Admits(l, cover) then l else r, cover);
    case Or(l, r) =>
      var k :| 0 <= k <= |cover| && Admits(l, cover[..k]) && Admits(r, cover[k..]);
      AdmittedIsNoSmaller(l, cover[..k]);
      AdmittedIsNoSmaller(r, cover[k..]);
  }

  /** The cost is finite exactly if some cover is admitted, and the collected one is then a smallest. */
  lemma CoverIsLeast(e: Expr)
    ensures ProbesOf(e).Few? <==> Coverable(e)
    ensures ProbesOf(e).Few? ==> Least(e, Cover(e))
    ensures ProbesOf(e) == Few(0) <==> Admits(e, [])
  {
    hide Admits, ProbesOf, Cover;
    forall other | Admits(e, other) ensures ProbesOf(e).Few? && ProbesOf(e).n <= |other| {
      AdmittedIsNoSmaller(e, other);
    }
    if ProbesOf(e).Few? {
      CoverIsAdmitted(e);
      CoverSize(e);
      assert |Cover(e)| == 0 ==> Cover(e) == [];
    }
  }

  /** An AND is covered by its left side whenever no smaller cover is admitted on the right. */
  lemma TiesGoLeft(l: Expr, r: Expr)
    requires Coverable(And(l, r))
    ensures Cover(And(l, r)) ==
              if exists cover :: Admits(l, cover) && Least(And(l, r), cover) then Cover(l) else Cover(r)
  {
    hide Admits, Cover;
    var e := And(l, r);
    CoverIsLeast(l);
    CoverIsLeast(r);
    CoverIsLeast(e);
    PickedCover(l, r);
    if NoMore(ProbesOf(l), ProbesOf(r)) {
      assert Admits(l, Cover(l)) && Least(e, Cover(l));
    } else {
      CoverSize(e);
      forall cover | Admits(l, cover) ensures !Least(e, cover) {
        AdmittedIsNoSmaller(l, cover);
        assert |cover| > |Cover(e)|;
      }
    }
  }

  lemma PickedCover(l: Expr, r: Expr)
    requires ProbesOf(And(l, r)).Few?
    ensures Cover(And(l, r)) == Cover(if NoMore(ProbesOf(l), ProbesOf(r)) then l else r)
  {
    CoverSize(l);
    CoverSize(r);
  }

  // ----- costs along the flat array -----

  ghost function NodeProbes(nodes: seq<Node>, i: nat): Probes
    requires Ordered(nodes) && i < |nodes|
    decreases i
  {
    match nodes[i]
    case LitNode(leaf) => LeafProbes(leaf)
    case NotNode(_) => All
    case AndNode(l, r) =>
      assert Refers(nodes[i], l) && Refers(nodes[i], r);
      Fewer(NodeProbes(nodes, l), NodeProbes(nodes, r))
    case OrNode(l, r) =>
      assert Refers(nodes[i], l) && Refers(nodes[i], r);
      Both(NodeProbes(nodes, l), NodeProbes(nodes, r))
  }

  method CostNodes(nodes: seq<Node>) returns (costs: seq<Probes>)
    requires Ordered(nodes)
    ensures |costs| == |nodes| && forall i | 0 <= i < |nodes| :: costs[i] == NodeProbes(nodes, i)
  {
    costs := [];
    var i := 0;
    while i < |nodes|
      invariant i <= |nodes| && |costs| == i && forall k | 0 <= k < i :: costs[k] == NodeProbes(nodes, k)
    {
      var cost;
      match nodes[i] {
        case LitNode(leaf) =>
          cost := LeafProbes(leaf);
        case NotNode(_) =>
          cost := All;
        case AndNode(l, r) =>
          assert Refers(nodes[i], l) && Refers(nodes[i], r);
          cost := if NoMore(costs[l], costs[r]) then costs[l] else costs[r];
        case OrNode(l, r) =>
          assert Refers(nodes[i], l) && Refers(nodes[i], r);
          cost := if costs[l].All? || costs[r].All? then All else Few(costs[l].n + costs[r].n);
      }
      costs := costs + [cost];
      i := i + 1;
    }
  }

  /** `e` is laid out with its last node at `root`. */
  ghost predicate Roots(nodes: seq<Node>, e: Expr, root: nat) {
    Size(e) <= root + 1 && Within(nodes, root + 1 - Size(e), Flatten(e, root + 1 - Size(e)))
  }

  /** The node at a subtree's root names its children's roots. */
  lemma RootNode(nodes: seq<Node>, e: Expr, root: nat)
    requires Roots(nodes, e, root)
    ensures root < |nodes|
    ensures e.Lit? ==> nodes[root] == LitNode(e.leaf)
    ensures e.Not? ==> nodes[root] == NotNode(root - 1) && Roots(nodes, e.inner, root - 1)
    ensures e.And? ==> nodes[root] == AndNode(root - 1 - Size(e.right), root - 1)
    ensures e.Or? ==> nodes[root] == OrNode(root - 1 - Size(e.right), root - 1)
    ensures e.And? || e.Or? ==>
              Size(e.right) < root && Roots(nodes, e.left, root - 1 - Size(e.right)) && Roots(nodes, e.right, root - 1)
  {
    hide Within, Flatten;
    var base := root + 1 - Size(e);
    match e
    case Lit(leaf) =>
      FlatLit(leaf, base);
      assert [] + [LitNode(leaf)] == [LitNode(leaf)];
      WithinLast(nodes, base, [], LitNode(leaf));
    case Not(c) =>
      FlatNot(c, base);
      WithinLast(nodes, base, Flatten(c, base), NotNode(base + Size(c) - 1));
    case And(l, r) =>
      FlatPair(l, r, base);
      PairWithin(nodes, base, l, r, AndNode(base + Size(l) - 1, base + Size(l) + Size(r) - 1));
    case Or(l, r) =>
      FlatPair(l, r, base);
      PairWithin(nodes, base, l, r, OrNode(base + Size(l) - 1, base + Size(l) + Size(r) - 1));
  }

  lemma {:induction false} RootProbes(nodes: seq<Node>, e: Expr, root: nat)
    requires Ordered(nodes) && Roots(nodes, e, root)
    ensures root < |nodes| && NodeProbes(nodes, root) == ProbesOf(e)
    decreases e
  {
    hide Roots, Ordered, Size, Fewer, Both, LeafProbes, Refers;
    RootNode(nodes, e, root);
    match e
    case Lit(_) =>
    case Not(_) =>
    case And(l, r) =>
      RootProbes(nodes, l, root - 1 - Size(r));
      RootProbes(nodes, r, root - 1);
    case Or(l, r) =>
      RootProbes(nodes, l, root - 1 - Size(r));
      RootProbes(nodes, r, root - 1);
  }

  // ----- collecting with a stack -----

  /** What the subtrees on the stack still have to contribute, top first. */
  ghost function Owed(todo: seq<Expr>): seq<string> {
    if todo == [] then [] else Cover(todo[|todo| - 1]) + Owed(todo[..|todo| - 1])
  }

  ghost function Weight(todo: seq<Expr>): (w: nat)
    ensures |todo| <= w
  {
    if todo == [] then 0 else Weight(todo[..|todo| - 1]) + Size(todo[|todo| - 1])
  }

  lemma Top(todo: seq<Expr>, e: Expr)
    ensures Owed(todo + [e]) == Cover(e) + Owed(todo) && Weight(todo + [e]) == Weight(todo) + Size(e)
  {
    assert (todo + [e])[..|todo|] == todo;
  }

  /** Every pending index is the root of its subtree, which has a finite cover. */
  ghost predicate Pending(nodes: seq<Node>, todo: seq<Expr>, pending: seq<nat>) {
    && |todo| == |pending|
    && (forall k | 0 <= k < |todo| :: Roots(nodes, todo[k], pending[k]) && ProbesOf(todo[k]).Few?)
  }

  /** The children an AND or OR puts back, and that they owe what it owed. */
  lemma Replaced(todo: seq<Expr>, e: Expr)
    requires ProbesOf(e).Few? && ProbesOf(e) != Few(0)
    ensures e.And? ==>
              var pick := if NoMore(ProbesOf(e.left), ProbesOf(e.right)) then e.left else e.right;
              && ProbesOf(pick).Few? && Owed(todo + [pick]) == Owed(todo + [e]) &&
                   Weight(todo + [pick]) < Weight(todo + [e])
    ensures e.Or? ==>
              && ProbesOf(e.left).Few? && ProbesOf(e.right).Few?
              && Owed(todo + [e.right] + [e.left]) == Owed(todo + [e]) &&
                   Weight(todo + [e.right] + [e.left]) < Weight(todo + [e])
  {
    hide Owed, Weight;
    Top(todo, e);
    if e.And? {
      Top(todo, e.left);
      Top(todo, e.right);
    } else if e.Or? {
      Top(todo, e.right);
      Top(todo + [e.right], e.left);
    }
  }

  /** One popped node: the terms it adds and the indices it pushes. */
  method Visit(nodes: seq<Node>, costs: seq<Probes>, index: nat, ghost e: Expr)
      returns (ok: bool, found: seq<string>, more: seq<nat>, ghost trees: seq<Expr>)
    requires Ordered(nodes) && Roots(nodes, e, index) && ProbesOf(e).Few?
    requires |costs| == |nodes| && forall i | 0 <= i < |nodes| :: costs[i] == NodeProbes(nodes, i)
    ensures ok && Pending(nodes, trees, more)
    ensures ProbesOf(e) == Few(0) ==> found == [] && trees == []
    ensures ProbesOf(e) != Few(0) && e.Lit? ==> found == Cover(e) && trees == []
    ensures ProbesOf(e) != Few(0) && e.And? ==>
              found == [] && trees == [if NoMore(ProbesOf(e.left), ProbesOf(e.right)) then e.left else e.right]
    ensures ProbesOf(e) != Few(0) && e.Or? ==> found == [] && trees == [e.right, e.left]
  {
    hide Ordered, Roots, NodeProbes;
    RootNode(nodes, e, index);
    RootProbes(nodes, e, index);
    ok, found, more, trees := true, [], [], [];
    if costs[index] == Few(0) {
      return;
    }
    match nodes[index]
    case LitNode(leaf) =>
      match leaf {
        case Word(term) =>
          found := [term];
        case Phrase(terms) =>
          if terms != [] {
            found := [terms[0]];
          }
        case _ =>
          ok := false;
      }
    case AndNode(l, r) =>
      RootProbes(nodes, e.left, l);
      RootProbes(nodes, e.right, r);
      if NoMore(costs[l], costs[r]) {
        more, trees := [l], [e.left];
      } else {
        more, trees := [r], [e.right];
      }
    case OrNode(l, r) =>
      more, trees := [r, l], [e.right, e.left];
    case NotNode(_) =>
      ok := false;
  }

  /**
   Collects the cover with a stack of pending nodes. Returns the largest stack as well: it
   never outgrows the node count.
   */
  method Collect(nodes: seq<Node>, costs: seq<Probes>, ghost e: Expr) returns (r: Option<seq<string>>, peak: nat)
    requires nodes == Flatten(e, 0) && Ordered(nodes) && ProbesOf(e).Few?
    requires |costs| == |nodes| && forall i | 0 <= i < |nodes| :: costs[i] == NodeProbes(nodes, i)
    ensures r == Some(Cover(e)) && Least(e, r.value) && peak <= |nodes|
  {
    hide Flatten, Ordered, Roots, NodeProbes, Cover, ProbesOf, Owed, Weight, Pending, Least;
    CoverIsLeast(e);
    var pending: seq<nat> := [|nodes| - 1];
    ghost var todo := [e];
    var terms: seq<string> := [];
    peak := 1;
    StartStack(nodes, e);
    while pending != []
      invariant Pending(nodes, todo, pending)
      invariant terms + Owed(todo) == Cover(e) && Weight(todo) <= |nodes| && peak <= |nodes|
      decreases Weight(todo)
    {
      var index := pending[|pending| - 1];
      PendingTop(nodes, todo, pending);
      ghost var top, rest := todo[|todo| - 1], todo[..|todo| - 1];
      assert rest + [top] == todo;
      var ok, found, more, trees := Visit(nodes, costs, index, top);
      if !ok {
        return None, peak;
      }
      Visited(rest, top, found, trees);
      assert terms + (found + Owed(rest + trees)) == (terms + found) + Owed(rest + trees);
      PendingNext(nodes, rest, pending[..|pending| - 1], trees, more);
      pending := pending[..|pending| - 1] + more;
      todo := rest + trees;
      terms := terms + found;
      PendingSize(nodes, todo, pending);
      peak := if peak < |pending| then |pending| else peak;
    }
    NothingOwed();
    PendingSize(nodes, todo, pending);
    assert todo == [] && terms + [] == terms;
    return Some(terms), peak;
  }

  lemma PendingTop(nodes: seq<Node>, todo: seq<Expr>, pending: seq<nat>)
    requires Pending(nodes, todo, pending) && pending != []
    ensures |todo| == |pending| && Roots(nodes, todo[|todo| - 1], pending[|todo| - 1]) &&
              ProbesOf(todo[|todo| - 1]).Few?
    ensures Pending(nodes, todo[..|todo| - 1], pending[..|todo| - 1])
  {
    hide Roots, ProbesOf;
  }

  lemma PendingNext(nodes: seq<Node>, todo: seq<Expr>, pending: seq<nat>, trees: seq<Expr>, more: seq<nat>)
    requires Pending(nodes, todo, pending) && Pending(nodes, trees, more)
    ensures Pending(nodes, todo + trees, pending + more)
  {
    hide Roots, ProbesOf;
  }

  lemma PendingSize(nodes: seq<Node>, todo: seq<Expr>, pending: seq<nat>)
    requires Pending(nodes, todo, pending)
    ensures |pending| == |todo| <= Weight(todo)
  {
  }

  lemma StartStack(nodes: seq<Node>, e: Expr)
    requires nodes == Flatten(e, 0)
    ensures Roots(nodes, e, |nodes| - 1) && Owed([e]) == Cover(e) && Weight([e]) == |nodes|
    ensures ProbesOf(e).Few? ==> Pending(nodes, [e], [|nodes| - 1])
  {
    hide Flatten, Cover, Owed, Weight, Size, ProbesOf, Roots, Pending;
    WholeRoots(nodes, e);
    OnlyOwed(e);
    if ProbesOf(e).Few? {
      PendingOne(nodes, e, |nodes| - 1);
    }
  }

  lemma PendingOne(nodes: seq<Node>, e: Expr, root: nat)
    requires Roots(nodes, e, root) && ProbesOf(e).Few?
    ensures Pending(nodes, [e], [root])
  {
    hide Roots, ProbesOf;
  }

  /** The last node of a flattened tree roots the whole tree. */
  lemma WholeRoots(nodes: seq<Node>, e: Expr)
    requires nodes == Flatten(e, 0)
    ensures Roots(nodes, e, |nodes| - 1) && |nodes| == Size(e)
  {
    hide Flatten, Size;
    assert nodes[0..0 + |nodes|] == nodes;
    assert Within(nodes, 0, nodes);
  }

  lemma OnlyOwed(e: Expr)
    ensures Owed([e]) == Cover(e) && Weight([e]) == Size(e)
  {
    hide Cover, Owed, Weight, Size;
    var none: seq<Expr> := [];
    assert none + [e] == [e];
    Top(none, e);
    NothingOwed();
    assert Cover(e) + [] == Cover(e);
  }

  lemma NothingOwed()
    ensures Owed([]) == [] && Weight([]) == 0
  {
  }

  lemma Visited(rest: seq<Expr>, e: Expr, found: seq<string>, trees: seq<Expr>)
    requires ProbesOf(e).Few?
    requires ProbesOf(e) == Few(0) ==> found == [] && trees == []
    requires ProbesOf(e) != Few(0) && e.Lit? ==> found == Cover(e) && trees == []
    requires ProbesOf(e) != Few(0) && e.And? ==>
               found == [] && trees == [if NoMore(ProbesOf(e.left), ProbesOf(e.right)) then e.left else e.right]
    requires ProbesOf(e) != Few(0) && e.Or? ==> found == [] && trees == [e.right, e.left]
    ensures found + Owed(rest + trees) == Owed(rest + [e]) && Weight(rest + trees) < Weight(rest + [e])
    ensures forall k | 0 <= k < |trees| :: ProbesOf(trees[k]).Few?
  {
    hide Owed, Weight, Size, NoMore;
    Top(rest, e);
    if trees == [] {
      assert rest + trees == rest;
    } else {
      Replaced(rest, e);
      if e.Or? {
        assert rest + [e.right, e.left] == rest + [e.right] + [e.left];
      }
    }
  }

  // ----- the plan -----

  predicate NotGreater(a: string, b: string) {
    a == b || Less(a, b)
  }

  lemma NotGreaterIsTotal()
    ensures TotalOrder(NotGreater)
  {
    forall a, b ensures NotGreater(a, b) || NotGreater(b, a) {
      LessTotal(a, b);
    }
    forall a, b, c | NotGreater(a, b) && NotGreater(b, c) ensures NotGreater(a, c) {
      if a != b && b != c {
        LessTrans(a, b, c);
      }
    }
  }

  ghost predicate Rising(s: seq<string>) {
    forall i, j | 0 <= i < j < |s| :: Less(s[i], s[j])
  }

  /** Drops neighbours that repeat. */
  method Dedup(s: seq<string>) returns (r: seq<string>)
    requires SortedBy(NotGreater, s)
    ensures Rising(r) && forall t :: t in r <==> t in s
  {
    r := [];
    var i := 0;
    while i < |s|
      invariant i <= |s| && Rising(r)
      invariant forall t :: t in r <==> t in s[..i]
      invariant if i == 0 then r == [] else r != [] && r[|r| - 1] == s[i - 1]
    {
      assert s[..i + 1] == s[..i] + [s[i]];
      if r == [] || r[|r| - 1] != s[i] {
        forall k | 0 <= k < |r| ensures Less(r[k], s[i]) {
          assert NotGreater(s[i - 1], s[i]);
          if k < |r| - 1 {
            LessTrans(r[k], r[|r| - 1], s[i]);
          }
        }
        r := r + [s[i]];
      }
      i := i + 1;
    }
    assert s[..i] == s;
  }

  /**
   The plan is the universe exactly for trees that admit no cover, `Empty` exactly for those
   that admit the empty one, and otherwise a smallest admitted cover without repeats. It never
   misses a match, and building it cannot reach its invalid state.
   */
  method BuildPlan(nodes: seq<Node>, ghost e: Expr) returns (r: Option<Plan>, peak: nat)
    requires nodes == Flatten(e, 0)
    ensures r.Some? && peak <= |nodes|
    ensures r == Some(Universe) <==> ProbesOf(e).All?
    ensures r == Some(Universe) <==> !Coverable(e)
    ensures r == Some(Empty) <==> ProbesOf(e) == Few(0)
    ensures r == Some(Empty) <==> Admits(e, [])
    ensures r.value.Terms? ==> Rising(r.value.terms) && forall t :: t in r.value.terms <==> t in Cover(e)
    ensures r.value.Terms? ==> exists cover :: Least(e, cover) && forall t :: t in r.value.terms <==> t in cover
    ensures PhrasesOk(e) ==>
              forall doc | Matches(doc, e) :: r.value.Universe? || (r.value.Terms? && Contains(doc, r.value.terms))
  {
    hide Flatten, Ordered, NodeProbes, Cover, ProbesOf, Matches, PhrasesOk, Admits, Coverable, Least;
    CoverIsLeast(e);
    FlattenIsOrdered(e);
    StartStack(nodes, e);
    RootProbes(nodes, e, |nodes| - 1);
    var costs := CostNodes(nodes);
    var cost := costs[|nodes| - 1];
    if cost == Few(0) {
      NeverMatches(e);
      return Some(Empty), 0;
    }
    if cost == All {
      return Some(Universe), 0;
    }
    var collected;
    collected, peak := Collect(nodes, costs, e);
    if collected.None? {
      return None, peak;
    }
    var sorted := SortBy(NotGreater, collected.value);
    NotGreaterIsTotal();
    SortKeeps(NotGreater, collected.value);
    SameMembers(sorted, collected.value);
    var terms := Dedup(sorted);
    if PhrasesOk(e) {
      forall doc | Matches(doc, e) ensures Contains(doc, terms) {
        CoverIsNecessary(doc, e);
      }
    }
    return Some(Terms(terms)), peak;
  }

  lemma SameMembers(a: seq<string>, b: seq<string>)
    requires multiset(a) == multiset(b)
    ensures forall t :: t in a <==> t in b
  {
    forall t ensures t in a <==> t in b {
      assert t in a <==> t in multiset(a);
      assert t in b <==> t in multiset(b);
    }
  }

  lemma NeverMatches(e: Expr)
    requires ProbesOf(e) == Few(0)
    ensures PhrasesOk(e) ==> forall doc :: !Matches(doc, e)
  {
    forall doc | PhrasesOk(e) && Matches(doc, e) ensures false {
      CoverIsNecessary(doc, e);
    }
  }
}
