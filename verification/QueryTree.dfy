/** Query expressions, the token grammar they come from, and their flat node arrays. */
module QueryTree {
  /** An operand after analysis; `Nothing` is the operand that matches no document. */
  datatype Leaf = Nothing | Word(term: string) | Prefix(prefix: string) | Phrase(terms: seq<string>)

  datatype Expr = Lit(leaf: Leaf) | Not(inner: Expr) | And(left: Expr, right: Expr) | Or(left: Expr, right: Expr)

  datatype Token = Open | Close | NotOp | AndOp | OrOp | Operand(leaf: Leaf)

  // ----- the grammar: NOT binds tightest, AND over OR, both left associative -----

  ghost predicate DerivesOr(ts: seq<Token>, e: Expr)
    decreases |ts|, 2
  {
    || DerivesAnd(ts, e)
    || (e.Or?
        && exists k ::
             0 <= k < |ts| && ts[k] == OrOp && DerivesOr(ts[..k], e.left) && DerivesAnd(ts[k + 1..], e.right))
  }

  ghost predicate DerivesAnd(ts: seq<Token>, e: Expr)
    decreases |ts|, 1
  {
    || DerivesNot(ts, e)
    || (e.And?
        && exists k ::
             0 <= k < |ts| && ts[k] == AndOp && DerivesAnd(ts[..k], e.left) && DerivesNot(ts[k + 1..], e.right))
  }

  ghost predicate DerivesNot(ts: seq<Token>, e: Expr)
    decreases |ts|, 0
  {
    || (|ts| == 1 && ts[0].Operand? && e == Lit(ts[0].leaf))
    || (|ts| > 0 && ts[0] == NotOp && e.Not? && DerivesNot(ts[1..], e.inner))
    || (|ts| > 2 && ts[0] == Open && ts[|ts| - 1] == Close && DerivesOr(ts[1..|ts| - 1], e))
  }

  // ----- flat arrays -----

  datatype Node = LitNode(leaf: Leaf) | NotNode(child: nat) | AndNode(left: nat, right: nat) | OrNode(left: nat,
      right: nat)

  function Size(e: Expr): (n: nat)
    ensures n > 0
  {
    match e
    case Lit(_) => 1
    case Not(c) => Size(c) + 1
    case And(l, r) => Size(l) + Size(r) + 1
    case Or(l, r) => Size(l) + Size(r) + 1
  }

  function Depth(e: Expr): (n: nat)
    ensures 0 < n <= Size(e)
  {
    match e
    case Lit(_) => 1
    case Not(c) => Depth(c) + 1
    case And(l, r) => Max(Depth(l), Depth(r)) + 1
    case Or(l, r) => Max(Depth(l), Depth(r)) + 1
  }

  function Max(a: nat, b: nat): nat {
    if a < b then b else a
  }

  /** Operands before operators: the array a bottom-up parser writes. */
  function Flatten(e: Expr, base: nat): (nodes: seq<Node>)
    ensures |nodes| == Size(e)
  {
    match e
    case Lit(leaf) => [LitNode(leaf)]
    case Not(c) => Flatten(c, base) + [NotNode(base + Size(c) - 1)]
    case And(l, r) =>
      Flatten(l, base) + Flatten(r, base + Size(l)) + [AndNode(base + Size(l) - 1, base + Size(l) + Size(r) - 1)]
    case Or(l, r) =>
      Flatten(l, base) + Flatten(r, base + Size(l)) + [OrNode(base + Size(l) - 1, base + Size(l) + Size(r) - 1)]
  }

  lemma FlatLit(leaf: Leaf, base: nat)
    ensures Flatten(Lit(leaf), base) == [LitNode(leaf)]
  {
  }

  lemma FlatNot(x: Expr, base: nat)
    ensures Flatten(Not(x), base) == Flatten(x, base) + [NotNode(base + Size(x) - 1)]
  {
  }

  lemma FlatPair(l: Expr, r: Expr, base: nat)
    ensures Flatten(And(l, r), base)
              == Flatten(l, base) + Flatten(r, base + Size(l)) + [AndNode(base + Size(l) - 1,
                  base + Size(l) + Size(r) - 1)]
    ensures Flatten(Or(l, r), base)
              == Flatten(l, base) + Flatten(r, base + Size(l)) + [OrNode(base + Size(l) - 1,
                  base + Size(l) + Size(r) - 1)]
  {
  }

  predicate Refers(node: Node, c: nat) {
    match node
    case LitNode(_) => false
    case NotNode(k) => c == k
    case AndNode(l, r) => c == l || c == r
    case OrNode(l, r) => c == l || c == r
  }

  /** How many operand slots of `node` name `c`. */
  function References(node: Node, c: nat): nat {
    match node
    case LitNode(_) => 0
    case NotNode(k) => if c == k then 1 else 0
    case AndNode(l, r) => (if c == l then 1 else 0) + (if c == r then 1 else 0)
    case OrNode(l, r) => (if c == l then 1 else 0) + (if c == r then 1 else 0)
  }

  function TotalReferences(nodes: seq<Node>, c: nat): nat {
    if nodes == [] then 0 else TotalReferences(nodes[..|nodes| - 1], c) + References(nodes[|nodes| - 1], c)
  }

  lemma {:induction false} TotalReferencesAppend(a: seq<Node>, b: seq<Node>, c: nat)
    ensures TotalReferences(a + b, c) == TotalReferences(a, c) + TotalReferences(b, c)
    decreases |b|
  {
    if b == [] {
      assert a + b == a;
    } else {
      assert (a + b)[..|a + b| - 1] == a + b[..|b| - 1];
      TotalReferencesAppend(a, b[..|b| - 1], c);
    }
  }

  /** Children come before their parents and stay inside the array. */
  lemma {:induction false} ChildrenComeFirst(e: Expr, base: nat, i: nat, c: nat)
    requires i < Size(e) && Refers(Flatten(e, base)[i], c)
    ensures base <= c < base + i
    decreases e
  {
    match e
    case Lit(_) =>
    case Not(x) =>
      if i < Size(x) {
        ChildrenComeFirst(x, base, i, c);
      }
    case And(l, r) =>
      if i < Size(l) {
        ChildrenComeFirst(l, base, i, c);
      } else if i < Size(l) + Size(r) {
        ChildrenComeFirst(r, base + Size(l), i - Size(l), c);
      }
    case Or(l, r) =>
      if i < Size(l) {
        ChildrenComeFirst(l, base, i, c);
      } else if i < Size(l) + Size(r) {
        ChildrenComeFirst(r, base + Size(l), i - Size(l), c);
      }
  }

  /** The root is last, nothing refers to it, and every other node has exactly one parent. */
  lemma {:induction false} OneParentEach(e: Expr, base: nat, c: nat)
    ensures TotalReferences(Flatten(e, base), c) == if base <= c < base + Size(e) - 1 then 1 else 0
    decreases e
  {
    hide TotalReferences, Flatten;
    match e
    case Lit(leaf) =>
      FlatLit(leaf, base);
      LastNode([], LitNode(leaf), c);
      NoReferences(c);
    case Not(x) =>
      FlatNot(x, base);
      OneParentEach(x, base, c);
      LastNode(Flatten(x, base), NotNode(base + Size(x) - 1), c);
    case And(l, r) =>
      FlatPair(l, r, base);
      OneParentEach(l, base, c);
      OneParentEach(r, base + Size(l), c);
      JoinedReferences(Flatten(l, base), Flatten(r, base + Size(l)),
          AndNode(base + Size(l) - 1, base + Size(l) + Size(r) - 1), c);
    case Or(l, r) =>
      FlatPair(l, r, base);
      OneParentEach(l, base, c);
      OneParentEach(r, base + Size(l), c);
      JoinedReferences(Flatten(l, base), Flatten(r, base + Size(l)),
          OrNode(base + Size(l) - 1, base + Size(l) + Size(r) - 1), c);
  }

  lemma NoReferences(c: nat)
    ensures TotalReferences([], c) == 0
  {
  }

  lemma LastNode(nodes: seq<Node>, node: Node, c: nat)
    ensures TotalReferences(nodes + [node], c) == TotalReferences(nodes, c) + References(node, c)
    ensures nodes == [] ==> nodes + [node] == [node]
  {
    assert (nodes + [node])[..|nodes|] == nodes;
  }

  lemma JoinedReferences(a: seq<Node>, b: seq<Node>, node: Node, c: nat)
    ensures TotalReferences(a + b + [node], c) == TotalReferences(a, c) + TotalReferences(b, c) + References(node, c)
  {
    TotalReferencesAppend(a, b, c);
    LastNode(a + b, node, c);
  }
}
