/** The document-at-a-time meaning of a query, its work account, and the method that computes both. */
module Oracle {
  import opened Outcomes
  import opened QueryTree

  /** The analyzed words of one document, by position. */
  type Document = seq<string>

  datatype SearchError = TermBytes | ElementCount | SearchWork

  // ----- meaning -----

  predicate PhraseAt(doc: Document, terms: seq<string>, start: nat) {
    start < |doc| && start + |terms| <= |doc| && doc[start..start + |terms|] == terms
  }

  predicate LeafHolds(doc: Document, leaf: Leaf) {
    match leaf
    case Nothing => false
    case Word(term) => term in doc
    case Prefix(prefix) => exists i :: 0 <= i < |doc| && prefix <= doc[i]
    case Phrase(terms) => exists start: nat :: start < |doc| && PhraseAt(doc, terms, start)
  }

  predicate Matches(doc: Document, e: Expr) {
    match e
    case Lit(leaf) => LeafHolds(doc, leaf)
    case Not(c) => !Matches(doc, c)
    case And(l, r) => Matches(doc, l) && Matches(doc, r)
    case Or(l, r) => Matches(doc, l) || Matches(doc, r)
  }

  // ----- work -----

  predicate WordFits(leaf: Leaf, word: string) {
    (leaf.Word? && word == leaf.term) || (leaf.Prefix? && leaf.prefix <= word)
  }

  /** Words looked at from position `i` until the first that fits. */
  function ScanCost(doc: Document, leaf: Leaf, i: nat): nat
    decreases |doc| - i
  {
    if i >= |doc| then 0 else if WordFits(leaf, doc[i]) then 1 else 1 + ScanCost(doc, leaf, i + 1)
  }

  /** Comparisons of one window, up to its first difference. */
  function WindowCost(doc: Document, terms: seq<string>, start: nat, d: nat): nat
    decreases |terms| - d
  {
    if d >= |terms| || start + d >= |doc| then 0
    else if doc[start + d] != terms[d] then 1
    else 1 + WindowCost(doc, terms, start, d + 1)
  }

  /** Comparisons from window `start` on, up to the first equal window. */
  function PhraseCost(doc: Document, terms: seq<string>, start: nat): nat
    decreases |doc| - start
  {
    if start >= |doc| || start + |terms| > |doc| then 0
    else WindowCost(doc, terms, start, 0) + if PhraseAt(doc, terms, start) then 0 else PhraseCost(doc, terms, start + 1)
  }

  function LeafCost(doc: Document, leaf: Leaf): nat {
    match leaf
    case Nothing => 0
    case Word(_) => ScanCost(doc, leaf, 0)
    case Prefix(_) => ScanCost(doc, leaf, 0)
    case Phrase(terms) => PhraseCost(doc, terms, 0)
  }

  /** Every node costs one step, leaves what they look at, and nothing is short-circuited. */
  function Cost(doc: Document, e: Expr): nat {
    match e
    case Lit(leaf) => 1 + LeafCost(doc, leaf)
    case Not(c) => Cost(doc, c) + 1
    case And(l, r) => Cost(doc, l) + Cost(doc, r) + 1
    case Or(l, r) => Cost(doc, l) + Cost(doc, r) + 1
  }

  /** The oracle's outcome: the meaning, if the budget covers the work. */
  function Judge(doc: Document, e: Expr, maxSteps: nat): Result<bool, SearchError> {
    if Cost(doc, e) <= maxSteps then Ok(Matches(doc, e)) else Err(SearchWork)
  }

  // ----- what the work amounts to -----

  /** A word or prefix scan looks at every word up to the first that fits, or at all of them. */
  lemma {:induction false} ScanStopsAtFirst(doc: Document, leaf: Leaf, from: nat, k: nat)
    requires from <= k <= |doc| && forall i | from <= i < k :: !WordFits(leaf, doc[i])
    requires k < |doc| ==> WordFits(leaf, doc[k])
    ensures ScanCost(doc, leaf, from) == k - from + if k < |doc| then 1 else 0
    decreases k - from
  {
    if from < k {
      ScanStopsAtFirst(doc, leaf, from + 1, k);
    }
  }

  /** A window is compared up to and including its first difference, or to its end. */
  lemma {:induction false} WindowStopsAtDifference(doc: Document, terms: seq<string>, start: nat, from: nat, k: nat)
    requires start + |terms| <= |doc| && from <= k <= |terms|
    requires forall d | from <= d < k :: doc[start + d] == terms[d]
    requires k < |terms| ==> doc[start + k] != terms[k]
    ensures WindowCost(doc, terms, start, from) == k - from + if k < |terms| then 1 else 0
    decreases k - from
  {
    if from < k {
      WindowStopsAtDifference(doc, terms, start, from + 1, k);
    }
  }

  predicate WindowFits(doc: Document, terms: seq<string>, start: nat) {
    start < |doc| && start + |terms| <= |doc|
  }

  /** The windows from `from` up to `to` together. */
  function WindowsCost(doc: Document, terms: seq<string>, from: nat, to: nat): nat
    decreases to - from
  {
    if from >= to then 0 else WindowCost(doc, terms, from, 0) + WindowsCost(doc, terms, from + 1, to)
  }

  /** A phrase scan compares every window up to the first equal one, or all windows that fit. */
  lemma {:induction false} PhraseStopsAtFirst(doc: Document, terms: seq<string>, from: nat, k: nat)
    requires from <= k
    requires forall start | from <= start < k :: WindowFits(doc, terms, start) && !PhraseAt(doc, terms, start)
    requires PhraseAt(doc, terms, k) || !WindowFits(doc, terms, k)
    ensures PhraseCost(doc, terms, from) == WindowsCost(doc, terms, from, if PhraseAt(doc, terms, k) then k + 1 else k)
    decreases k - from
  {
    var end := if PhraseAt(doc, terms, k) then k + 1 else k;
    if from < k {
      PhraseStopsAtFirst(doc, terms, from + 1, k);
      assert WindowFits(doc, terms, from) && !PhraseAt(doc, terms, from);
    } else if end == k + 1 {
      assert WindowsCost(doc, terms, k + 1, end) == 0;
    }
  }

  /** The leaves of a tree, from left to right. */
  function Leaves(e: Expr): seq<Leaf> {
    match e
    case Lit(leaf) => [leaf]
    case Not(c) => Leaves(c)
    case And(l, r) => Leaves(l) + Leaves(r)
    case Or(l, r) => Leaves(l) + Leaves(r)
  }

  function LeavesCost(doc: Document, leaves: seq<Leaf>): nat {
    if leaves == [] then 0
    else LeavesCost(doc, leaves[..|leaves| - 1]) + LeafCost(doc, leaves[|leaves| - 1])
  }

  lemma {:induction false} LeavesCostAdds(doc: Document, a: seq<Leaf>, b: seq<Leaf>)
    ensures LeavesCost(doc, a + b) == LeavesCost(doc, a) + LeavesCost(doc, b)
    decreases |b|
  {
    if b == [] {
      assert a + b == a;
    } else {
      LeavesCostAdds(doc, a, b[..|b| - 1]);
      assert (a + b)[..|a + b| - 1] == a + b[..|b| - 1];
    }
  }

  /** The whole cost: one step for each node and what every leaf looks at, matched or not. */
  lemma {:induction false} CostIsNodesAndLeaves(doc: Document, e: Expr)
    ensures Cost(doc, e) == Size(e) + LeavesCost(doc, Leaves(e))
    decreases e
  {
    match e
    case Lit(leaf) =>
      assert [leaf][..0] == [];
      assert LeavesCost(doc, [leaf]) == LeafCost(doc, leaf);
    case Not(c) => CostIsNodesAndLeaves(doc, c);
    case And(l, r) =>
      CostIsNodesAndLeaves(doc, l);
      CostIsNodesAndLeaves(doc, r);
      LeavesCostAdds(doc, Leaves(l), Leaves(r));
    case Or(l, r) =>
      CostIsNodesAndLeaves(doc, l);
      CostIsNodesAndLeaves(doc, r);
      LeavesCostAdds(doc, Leaves(l), Leaves(r));
  }

  // ----- one leaf, with a budget -----

  /** The leaf's value and the work left, or None when the work runs out. */
  function LeafOutcome(doc: Document, leaf: Leaf, left: nat): Option<(bool, nat)> {
    if LeafCost(doc, leaf) <= left then Some((LeafHolds(doc, leaf), left - LeafCost(doc, leaf))) else None
  }

  method ScanLeaf(doc: Document, leaf: Leaf, left: nat) returns (r: Option<(bool, nat)>)
    requires leaf.Word? || leaf.Prefix?
    ensures r == LeafOutcome(doc, leaf, left)
  {
    var work: nat := left;
    var i := 0;
    while i < |doc|
      invariant i <= |doc| && work <= left
      invariant forall k | 0 <= k < i :: !WordFits(leaf, doc[k])
      invariant ScanCost(doc, leaf, 0) == (left - work) + ScanCost(doc, leaf, i)
    {
      if work == 0 {
        return None;
      }
      work := work - 1;
      if WordFits(leaf, doc[i]) {
        assert leaf.Word? ==> doc[i] in doc;
        return Some((true, work));
      }
      i := i + 1;
    }
    assert !LeafHolds(doc, leaf) by {
      if leaf.Word? && leaf.term in doc {
        var k :| 0 <= k < |doc| && doc[k] == leaf.term;
        assert WordFits(leaf, doc[k]);
      }
      if leaf.Prefix? && LeafHolds(doc, leaf) {
        var k :| 0 <= k < |doc| && leaf.prefix <= doc[k];
        assert WordFits(leaf, doc[k]);
      }
    }
    return Some((false, work));
  }

  /** One window: its value and the work left, or None when the work runs out. */
  method CompareWindow(doc: Document, terms: seq<string>, start: nat, left: nat) returns (r: Option<(bool, nat)>)
    requires start < |doc| && start + |terms| <= |doc|
    ensures r == if WindowCost(doc, terms, start, 0) <= left
                 then Some((PhraseAt(doc, terms, start), left - WindowCost(doc, terms, start, 0)))
                 else None
  {
    var work: nat := left;
    var d := 0;
    while d < |terms|
      invariant d <= |terms| && work <= left
      invariant doc[start..start + d] == terms[..d]
      invariant WindowCost(doc, terms, start, 0) == (left - work) + WindowCost(doc, terms, start, d)
    {
      if work == 0 {
        return None;
      }
      work := work - 1;
      if doc[start + d] != terms[d] {
        assert doc[start..start + |terms|][d] == doc[start + d];
        return Some((false, work));
      }
      assert doc[start..start + d + 1] == doc[start..start + d] + [doc[start + d]];
      d := d + 1;
    }
    assert terms[..d] == terms;
    return Some((true, work));
  }

  method ScanPhrase(doc: Document, terms: seq<string>, left: nat) returns (r: Option<(bool, nat)>)
    ensures r == LeafOutcome(doc, Phrase(terms), left)
  {
    var work: nat := left;
    var start := 0;
    while start < |doc|
      invariant start <= |doc| && work <= left
      invariant forall k | 0 <= k < start :: !PhraseAt(doc, terms, k)
      invariant PhraseCost(doc, terms, 0) == (left - work) + PhraseCost(doc, terms, start)
    {
      if |terms| > |doc| - start {
        break;
      }
      var w := CompareWindow(doc, terms, start, work);
      if w.None? {
        return None;
      }
      work := w.value.1;
      if w.value.0 {
        return Some((true, work));
      }
      start := start + 1;
    }
    return Some((false, work));
  }

  // ----- the flat array -----

  /** Children precede their parents. */
  ghost predicate Ordered(nodes: seq<Node>) {
    forall i, c: nat | 0 <= i < |nodes| && Refers(nodes[i], c) :: c < i
  }

  ghost function NodeValue(doc: Document, nodes: seq<Node>, i: nat): bool
    requires Ordered(nodes) && i < |nodes|
    decreases i
  {
    match nodes[i]
    case LitNode(leaf) => LeafHolds(doc, leaf)
    case NotNode(c) => assert Refers(nodes[i], c); !NodeValue(doc, nodes, c)
    case AndNode(l, r) =>
      assert Refers(nodes[i], l) && Refers(nodes[i], r);
      NodeValue(doc, nodes, l) && NodeValue(doc, nodes, r)
    case OrNode(l, r) =>
      assert Refers(nodes[i], l) && Refers(nodes[i], r);
      NodeValue(doc, nodes, l) || NodeValue(doc, nodes, r)
  }

  function NodesCost(doc: Document, nodes: seq<Node>): nat {
    if nodes == [] then 0
    else
      var node := nodes[|nodes| - 1];
      NodesCost(doc, nodes[..|nodes| - 1]) + 1 + if node.LitNode? then LeafCost(doc, node.leaf) else 0
  }

  /** Evaluates the nodes bottom-up into a vector of values, charging the work as it goes. */
  method Evaluate(doc: Document, nodes: seq<Node>, root: nat, maxSteps: nat) returns (r: Result<bool, SearchError>)
    requires Ordered(nodes) && root < |nodes|
    ensures r == if NodesCost(doc, nodes) <= maxSteps then Ok(NodeValue(doc, nodes, root)) else Err(SearchWork)
  {
    var work: nat := maxSteps;
    var values: seq<bool> := [];
    var i := 0;
    while i < |nodes|
      invariant i <= |nodes| && |values| == i && work <= maxSteps
      invariant NodesCost(doc, nodes[..i]) == maxSteps - work
      invariant forall k | 0 <= k < i :: values[k] == NodeValue(doc, nodes, k)
    {
      assert nodes[..i + 1][..i] == nodes[..i];
      CostGrows(doc, nodes, i + 1);
      if work == 0 {
        return Err(SearchWork);
      }
      work := work - 1;
      var value;
      match nodes[i] {
        case LitNode(leaf) =>
          var o;
          match leaf {
            case Nothing =>
              o := Some((false, work));
            case Phrase(terms) =>
              o := ScanPhrase(doc, terms, work);
            case _ =>
              o := ScanLeaf(doc, leaf, work);
          }
          if o.None? {
            return Err(SearchWork);
          }
          value, work := o.value.0, o.value.1;
        case NotNode(c) =>
          assert Refers(nodes[i], c);
          value := !values[c];
        case AndNode(l, r) =>
          assert Refers(nodes[i], l) && Refers(nodes[i], r);
          value := values[l] && values[r];
        case OrNode(l, r) =>
          assert Refers(nodes[i], l) && Refers(nodes[i], r);
          value := values[l] || values[r];
      }
      values := values + [value];
      i := i + 1;
    }
    assert nodes[..i] == nodes;
    return Ok(values[root]);
  }

  lemma {:induction false} CostGrows(doc: Document, nodes: seq<Node>, n: nat)
    requires n <= |nodes|
    ensures NodesCost(doc, nodes[..n]) <= NodesCost(doc, nodes)
    decreases |nodes| - n
  {
    if n == |nodes| {
      assert nodes[..n] == nodes;
    } else {
      CostGrows(doc, nodes, n + 1);
      assert nodes[..n + 1][..n] == nodes[..n];
    }
  }

  // ----- the array of a tree -----

  lemma FlattenIsOrdered(e: Expr)
    ensures Ordered(Flatten(e, 0))
  {
    forall i, c: nat | 0 <= i < |Flatten(e, 0)| && Refers(Flatten(e, 0)[i], c) ensures c < i {
      ChildrenComeFirst(e, 0, i, c);
    }
  }

  /** `part` stands at `base` in the array. */
  ghost predicate Within(nodes: seq<Node>, base: nat, part: seq<Node>) {
    base + |part| <= |nodes| && nodes[base..base + |part|] == part
  }

  lemma WithinSplits(nodes: seq<Node>, base: nat, a: seq<Node>, b: seq<Node>)
    requires Within(nodes, base, a + b)
    ensures Within(nodes, base, a) && Within(nodes, base + |a|, b)
  {
    assert (a + b)[..|a|] == a && (a + b)[|a|..] == b;
    assert nodes[base..base + |a|] == nodes[base..base + |a + b|][..|a|];
    assert nodes[base + |a|..base + |a + b|] == nodes[base..base + |a + b|][|a|..];
  }

  lemma WithinLast(nodes: seq<Node>, base: nat, a: seq<Node>, node: Node)
    requires Within(nodes, base, a + [node])
    ensures Within(nodes, base, a) && base + |a| < |nodes| && nodes[base + |a|] == node
  {
    WithinSplits(nodes, base, a, [node]);
    assert nodes[base + |a|..base + |a| + 1][0] == nodes[base + |a|];
  }

  lemma PairWithin(nodes: seq<Node>, base: nat, l: Expr, r: Expr, node: Node)
    requires Within(nodes, base, Flatten(l, base) + Flatten(r, base + Size(l)) + [node])
    ensures Within(nodes, base, Flatten(l, base)) && Within(nodes, base + Size(l), Flatten(r, base + Size(l)))
    ensures base + Size(l) + Size(r) < |nodes| && nodes[base + Size(l) + Size(r)] == node
  {
    hide Within, Flatten, Size;
    WithinLast(nodes, base, Flatten(l, base) + Flatten(r, base + Size(l)), node);
    WithinSplits(nodes, base, Flatten(l, base), Flatten(r, base + Size(l)));
  }

  lemma ValueAt(doc: Document, nodes: seq<Node>, i: nat)
    requires Ordered(nodes) && i < |nodes|
    ensures nodes[i].LitNode? ==> NodeValue(doc, nodes, i) == LeafHolds(doc, nodes[i].leaf)
    ensures nodes[i].NotNode? ==>
              nodes[i].child < i && NodeValue(doc, nodes, i) == !NodeValue(doc, nodes, nodes[i].child)
    ensures nodes[i].AndNode? || nodes[i].OrNode? ==> nodes[i].left < i && nodes[i].right < i
    ensures nodes[i].AndNode? ==>
              NodeValue(doc, nodes, i) == (NodeValue(doc, nodes, nodes[i].left) &&
                  NodeValue(doc, nodes, nodes[i].right))
    ensures nodes[i].OrNode? ==>
              NodeValue(doc, nodes, i) == (NodeValue(doc, nodes, nodes[i].left) ||
                  NodeValue(doc, nodes, nodes[i].right))
  {
    hide LeafHolds;
    match nodes[i]
    case LitNode(_) =>
    case NotNode(c) => assert Refers(nodes[i], c);
    case AndNode(l, r) => assert Refers(nodes[i], l) && Refers(nodes[i], r);
    case OrNode(l, r) => assert Refers(nodes[i], l) && Refers(nodes[i], r);
  }

  /** The last node of a flattened tree has the tree's value. */
  lemma {:induction false} FlattenValue(doc: Document, nodes: seq<Node>, e: Expr, base: nat)
    requires Ordered(nodes) && Within(nodes, base, Flatten(e, base))
    ensures base + Size(e) <= |nodes| && NodeValue(doc, nodes, base + Size(e) - 1) == Matches(doc, e)
    decreases e
  {
    hide Within, Ordered, LeafHolds, NodeValue, Flatten;
    match e
    case Lit(leaf) =>
      FlatLit(leaf, base);
      assert [] + [LitNode(leaf)] == [LitNode(leaf)];
      WithinLast(nodes, base, [], LitNode(leaf));
      ValueAt(doc, nodes, base);
    case Not(c) =>
      FlatNot(c, base);
      WithinLast(nodes, base, Flatten(c, base), NotNode(base + Size(c) - 1));
      FlattenValue(doc, nodes, c, base);
      ValueAt(doc, nodes, base + Size(c));
    case And(l, r) =>
      FlatPair(l, r, base);
      PairWithin(nodes, base, l, r, AndNode(base + Size(l) - 1, base + Size(l) + Size(r) - 1));
      FlattenValue(doc, nodes, l, base);
      FlattenValue(doc, nodes, r, base + Size(l));
      ValueAt(doc, nodes, base + Size(l) + Size(r));
    case Or(l, r) =>
      FlatPair(l, r, base);
      PairWithin(nodes, base, l, r, OrNode(base + Size(l) - 1, base + Size(l) + Size(r) - 1));
      FlattenValue(doc, nodes, l, base);
      FlattenValue(doc, nodes, r, base + Size(l));
      ValueAt(doc, nodes, base + Size(l) + Size(r));
  }

  lemma {:induction false} NodesCostAppend(doc: Document, a: seq<Node>, b: seq<Node>)
    ensures NodesCost(doc, a + b) == NodesCost(doc, a) + NodesCost(doc, b)
    decreases |b|
  {
    if b == [] {
      assert a + b == a;
    } else {
      assert (a + b)[..|a + b| - 1] == a + b[..|b| - 1];
      NodesCostAppend(doc, a, b[..|b| - 1]);
    }
  }

  lemma OneCost(doc: Document, node: Node)
    ensures NodesCost(doc, [node]) == 1 + if node.LitNode? then LeafCost(doc, node.leaf) else 0
  {
    assert [node][..0] == [];
  }

  lemma {:induction false} FlattenCost(doc: Document, e: Expr, base: nat)
    ensures NodesCost(doc, Flatten(e, base)) == Cost(doc, e)
    decreases e
  {
    hide NodesCost, LeafCost, Flatten;
    match e
    case Lit(leaf) =>
      FlatLit(leaf, base);
      OneCost(doc, LitNode(leaf));
    case Not(c) =>
      FlatNot(c, base);
      FlattenCost(doc, c, base);
      NodesCostAppend(doc, Flatten(c, base), [NotNode(base + Size(c) - 1)]);
      OneCost(doc, NotNode(base + Size(c) - 1));
    case And(l, r) =>
      FlatPair(l, r, base);
      var node := AndNode(base + Size(l) - 1, base + Size(l) + Size(r) - 1);
      FlattenCost(doc, l, base);
      FlattenCost(doc, r, base + Size(l));
      NodesCostAppend(doc, Flatten(l, base), Flatten(r, base + Size(l)));
      NodesCostAppend(doc, Flatten(l, base) + Flatten(r, base + Size(l)), [node]);
      OneCost(doc, node);
    case Or(l, r) =>
      FlatPair(l, r, base);
      var node := OrNode(base + Size(l) - 1, base + Size(l) + Size(r) - 1);
      FlattenCost(doc, l, base);
      FlattenCost(doc, r, base + Size(l));
      NodesCostAppend(doc, Flatten(l, base), Flatten(r, base + Size(l)));
      NodesCostAppend(doc, Flatten(l, base) + Flatten(r, base + Size(l)), [node]);
      OneCost(doc, node);
  }

  /** The oracle on a parsed query: the tree's meaning within the tree's work. */
  method MatchDocument(doc: Document, nodes: seq<Node>, ghost e: Expr, maxSteps: nat)
      returns (r: Result<bool, SearchError>)
    requires nodes == Flatten(e, 0)
    ensures r == Judge(doc, e, maxSteps)
  {
    hide Ordered, NodeValue, NodesCost, Flatten, Matches, Cost;
    FlattenIsOrdered(e);
    FlattenCost(doc, e, 0);
    assert nodes[0..0 + |nodes|] == nodes;
    assert Within(nodes, 0, Flatten(e, 0));
    FlattenValue(doc, nodes, e, 0);
    r := Evaluate(doc, nodes, |nodes| - 1, maxSteps);
  }
}
