/**
 The shunting-yard parser: a token loop over a builder that owns the node array and the
 value and operator stacks.
 */
module QueryParser {
  import opened Outcomes
  import opened QueryTree
  import opened ParserMachine
  import opened ParserStacks
  import opened ParserLimits

  datatype Query = Query(nodes: seq<Node>, root: nat)

  class Builder {
    const limits: Limits
    var nodes: seq<Node>
    var depths: seq<nat>
    var values: seq<nat>
    var operators: seq<Op>
    ghost var trees: seq<Expr>

    ghost predicate Valid()
      reads this
    {
      && Laid(nodes, depths, values, trees)
      && |nodes| <= limits.nodes && |operators| <= limits.nodes
      && (forall k | 0 <= k < |trees| :: Depth(trees[k]) <= limits.depth)
    }

    /** The stacks are those of the machine state `c`. */
    ghost predicate Matches(c: Config)
      reads this
    {
      c.levels != [] && trees == ConfigTrees(c) && operators == LevelsOps(c.levels)
    }

    /** The stacks are those of the state after `token`. */
    ghost predicate MatchesNext(c: Config, token: Token)
      reads this
    {
      c.levels != [] && Step(c, token).Some? && Matches(Step(c, token).value)
    }

    constructor (limits: Limits)
      ensures Valid() && Matches(START) && this.limits == limits
      ensures nodes == [] && operators == []
    {
      this.limits := limits;
      nodes, depths, values, operators, trees := [], [], [], [], [];
      assert LevelsTrees([FRESH]) == LevelsTrees([FRESH][..0]) + LevelTrees(FRESH);
    }

    method AddNode(kind: Node) returns (r: Result<(), ParseError>)
      requires forall c: nat | Refers(kind, c) :: c < |depths|
      requires |values| <= |nodes|
      modifies this`nodes, this`depths, this`values
      ensures r.Ok? ==>
                && nodes == old(nodes) + [kind] && |nodes| <= limits.nodes
                && depths == old(depths) + [DepthOf(kind, old(depths))] && DepthOf(kind, old(depths)) <= limits.depth
                && values == old(values) + [|old(nodes)|]
      ensures r.Err? ==>
                && r.error == Limit
                && (limits.nodes <= |old(nodes)| || limits.depth < DepthOf(kind, old(depths)))
    {
      var depth := DepthOf(kind, depths);
      if depth > limits.depth {
        return Err(Limit);
      }
      if |nodes| + 1 > limits.nodes || |values| + 1 > limits.nodes {
        return Err(Limit);
      }
      values := values + [|nodes|];
      nodes := nodes + [kind];
      depths := depths + [depth];
      return Ok(());
    }

    /** NOT takes the top of the value stack. */
    method ReduceNot() returns (r: Result<(), ParseError>)
      requires Valid()
      modifies this`nodes, this`depths, this`values, this`trees
      ensures r.Ok? ==> Valid() && Reduced(old(trees), NotSign) == Some(trees) && |nodes| == |old(nodes)| + 1
      ensures r.Err? ==> (r.error == Syntax <==> Reduced(old(trees), NotSign).None?)
      ensures r == Err(Limit) ==> OverTrees(limits, Reduced(old(trees), NotSign).value)
      ensures r == Err(Limit) ==> limits.nodes <= |old(nodes)| || limits.depth <= |old(nodes)|
    {
      hide Laid, FlattenAll, Roots, TotalSize, Flatten, Size, Depth;
      LaidCounts(nodes, depths, values, trees);
      if values == [] {
        return Err(Syntax);
      }
      ghost var below, x := trees[..|trees| - 1], trees[|trees| - 1];
      assert below + [x] == trees;
      TopValue(nodes, depths, values, below, x);
      var right := values[|values| - 1];
      values := values[..|values| - 1];
      assert values == Roots(below);
      r := AddNode(NotNode(right));
      trees := below + [Not(x)];
      if r.Ok? {
        NotLaid(old(nodes), old(depths), old(values), below, x, right);
      } else {
        LaidNodes(old(nodes), old(depths), old(values), below + [x]);
        NotOverLimit(limits, below, x);
      }
    }

    /** AND and OR take the top two, the upper one on the right. */
    method ReducePair(op: Op) returns (r: Result<(), ParseError>)
      requires Valid() && (op == AndSign || op == OrSign)
      modifies this`nodes, this`depths, this`values, this`trees
      ensures r.Ok? ==> Valid() && Reduced(old(trees), op) == Some(trees) && |nodes| == |old(nodes)| + 1
      ensures r.Err? ==> (r.error == Syntax <==> Reduced(old(trees), op).None?)
      ensures r == Err(Limit) ==> OverTrees(limits, Reduced(old(trees), op).value)
      ensures r == Err(Limit) ==> limits.nodes <= |old(nodes)| || limits.depth <= |old(nodes)|
    {
      hide Laid, FlattenAll, Roots, TotalSize, Flatten, Size, Depth;
      LaidCounts(nodes, depths, values, trees);
      if |values| < 2 {
        return Err(Syntax);
      }
      ghost var n := |trees|;
      ghost var below, l, x := trees[..n - 2], trees[n - 2], trees[n - 1];
      assert below + [l] + [x] == trees;
      TopValue(nodes, depths, values, below + [l], x);
      SecondValue(nodes, depths, values, below, l, x);
      var right := values[|values| - 1];
      var left := values[|values| - 2];
      values := values[..|values| - 2];
      assert values == Roots(below);
      r := AddNode(if op == AndSign then AndNode(left, right) else OrNode(left, right));
      trees := below + [if op == AndSign then And(l, x) else Or(l, x)];
      if r.Ok? {
        PairLaid(old(nodes), old(depths), old(values), below, l, x, left, right);
      } else {
        LaidNodes(old(nodes), old(depths), old(values), below + [l] + [x]);
        PairOverLimit(limits, below, l, x, if op == AndSign then And(l, x) else Or(l, x));
      }
    }

    /** Applies an operator popped from the operator stack to the top of the value stack. */
    method Reduce(op: Op) returns (r: Result<(), ParseError>)
      requires Valid()
      modifies this`nodes, this`depths, this`values, this`trees
      ensures r.Ok? ==> Valid() && Reduced(old(trees), op) == Some(trees) && |nodes| == |old(nodes)| + 1
      ensures r.Err? ==> (r.error == Syntax <==> Reduced(old(trees), op).None?)
      ensures r == Err(Limit) ==> OverTrees(limits, Reduced(old(trees), op).value)
      ensures r == Err(Limit) ==> limits.nodes <= |old(nodes)| || limits.depth <= |old(nodes)|
    {
      match op
      case OpenParen =>
        r := Err(Syntax);
      case NotSign =>
        r := ReduceNot();
      case _ =>
        r := ReducePair(op);
    }

    /** Reads an operand. */
    method Operand(leaf: Leaf, ghost c: Config) returns (r: Result<(), ParseError>)
      requires Valid() && Matches(c) && c.operand.None?
      modifies this`nodes, this`depths, this`values, this`trees
      ensures r.Ok? ==> Valid() && MatchesNext(c, Token.Operand(leaf)) && |nodes| == |old(nodes)| + 1
      ensures r.Err? ==> r.error == Limit && Tight(|old(nodes)| + 1)
      ensures r.Err? ==> StepOver(limits, c, Token.Operand(leaf))
    {
      hide Laid, FlattenAll, Roots, LevelsTrees, LevelsOps, OverTrees, TotalSize, Depth, Size, Flatten, ConfigTrees,
          Step;
      OperandStep(c, leaf);
      LeafDepth(leaf);
      LaidCounts(nodes, depths, values, trees);
      ghost var was := trees;
      r := AddNode(LitNode(leaf));
      trees := was + [Lit(leaf)];
      if r.Ok? {
        LeafLaid(old(nodes), old(depths), old(values), was, leaf);
      } else {
        LaidNodes(old(nodes), old(depths), old(values), was);
        LeafOverLimit(limits, was, leaf);
      }
    }

    /** Pops the top operator and applies it. */
    method PopReduce(ghost c: Config) returns (r: Result<(), ParseError>)
      requires Valid() && Matches(c) && c.operand.Some? && LevelOps(Innermost(c)) != []
      modifies this`nodes, this`depths, this`values, this`trees, this`operators
      ensures r.Ok? ==> Valid() && Matches(ReduceConfig(c))
      ensures r.Ok? ==> |nodes| == |old(nodes)| + 1 && |operators| == |old(operators)| - 1
      ensures r.Err? ==> r.error == Limit && Tight(|old(nodes)| + |old(operators)|)
      ensures r.Err? ==> OverTrees(limits, ConfigTrees(ReduceConfig(c)))
    {
      hide OverTrees, Depth;
      hide Laid, ReduceConfig, ConfigTrees, LevelsOps, LevelOps, Reduced;
      ReduceConfigStacks(c);
      var top := operators[|operators| - 1];
      operators := operators[..|operators| - 1];
      r := Reduce(top);
      assert ReduceConfig(c).levels != [] by {
        ReducedLevels(c);
      }
    }

    lemma NotOver()
      requires Valid()
      ensures !OverTrees(limits, trees)
    {
      LaidNodes(nodes, depths, values, trees);
    }

    /** Some limit is below `n`. */
    ghost predicate Tight(n: nat) {
      limits.nodes < n || limits.depth < n
    }

    /** Reads an operator or an opening parenthesis: one step of the machine. */
    method Operator(op: Op, ghost c: Config) returns (r: Result<(), ParseError>)
      requires Valid() && Matches(c) && Step(c, TokenOf(op)).Some?
      modifies this`nodes, this`depths, this`values, this`trees, this`operators
      ensures r.Ok? ==> Valid() && Matches(Step(c, TokenOf(op)).value)
      ensures r.Ok? ==> |nodes| + |operators| == |old(nodes)| + |old(operators)| + 1
      ensures r.Err? ==> r.error == Limit && Tight(|old(nodes)| + |old(operators)| + 1)
      ensures r.Err? ==> StepOver(limits, c, TokenOf(op))
    {
      hide Laid, ReduceConfig, ConfigTrees, LevelsOps, LevelOps, UnderOr, UnderAnd, OverTrees, Step;
      StepShape(c, TokenOf(op));
      ghost var now := c;
      if op == AndSign || op == OrSign {
        SameConfig(c);
        while operators != [] && Precedence(operators[|operators| - 1]) >= Precedence(op)
          invariant Valid() && Matches(now) && ReducedFrom(c, now)
          invariant op == AndSign ==> KeepsAnd(c, now)
          invariant |nodes| + |operators| == |old(nodes)| + |old(operators)|
          decreases |operators|
        {
          TopOperator(now.levels);
          ReduceConfigStacks(now);
          ReduceConfigKeeps(c, now);
          r := PopReduce(now);
          if r.Err? {
            OverBinary(limits, c, ReduceConfig(now), op);
            return;
          }
          now := ReduceConfig(now);
        }
        PushBinary(c, now, op);
      } else {
        PushPrefix(c, op);
      }
      if |operators| + 1 > limits.nodes {
        return Err(Limit);
      }
      operators := operators + [op];
      return Ok(());
    }

    /** Reads a closing parenthesis. */
    method CloseParen(ghost c: Config) returns (r: Result<(), ParseError>)
      requires Valid() && Matches(c) && c.operand.Some?
      modifies this`nodes, this`depths, this`values, this`trees, this`operators
      ensures r.Ok? ==> Step(c, Close).Some? && Valid() && Matches(Step(c, Close).value)
      ensures r.Ok? ==> |nodes| + |operators| < |old(nodes)| + |old(operators)|
      ensures r == Err(Syntax) ==> |c.levels| == 1 && !OverTrees(limits, Collapsed(c))
      ensures r == Err(Limit) ==> Tight(|old(nodes)| + |old(operators)|)
      ensures r == Err(Limit) ==> OverTrees(limits, Collapsed(c))
    {
      hide OverTrees, Collapsed;
      hide Laid, ReduceConfig, ConfigTrees, LevelsOps, LevelOps, UnderOr, UnderAnd, Step;
      ghost var now := c;
      SameConfig(c);
      while operators != []
        invariant Valid() && Matches(now) && ReducedFrom(c, now)
        invariant |nodes| + |operators| == |old(nodes)| + |old(operators)|
        decreases |operators|
      {
        TopOperator(now.levels);
        if operators[|operators| - 1] == OpenParen {
          TopIsOpen(now);
          PopClose(c, now);
          operators := operators[..|operators| - 1];
          return Ok(());
        }
        ReduceConfigKeeps(c, now);
        r := PopReduce(now);
        if r.Err? {
          OverCollapsed(limits, c, ReduceConfig(now));
          return;
        }
        now := ReduceConfig(now);
      }
      TopOperator(now.levels);
      CollapsedReached(c, now);
      NotOver();
      return Err(Syntax);
    }

    /** Applies what is left once the tokens are used up. */
    method ReduceAll(ghost c: Config) returns (r: Result<(), ParseError>)
      requires Valid() && Matches(c) && c.operand.Some?
      modifies this`nodes, this`depths, this`values, this`trees, this`operators
      ensures r.Ok? ==> Valid() && |c.levels| == 1 && operators == []
      ensures r.Ok? ==> trees == [UnderOr(Innermost(c), c.operand.value).tree]
      ensures r == Err(Syntax) ==> |c.levels| > 1 && !OverTrees(limits, Collapsed(c))
      ensures r == Err(Limit) ==> Tight(|old(nodes)| + |old(operators)|)
      ensures r == Err(Limit) ==> OverTrees(limits, Collapsed(c))
    {
      hide OverTrees, Collapsed;
      hide Laid, ReduceConfig, ConfigTrees, LevelsOps, LevelOps, UnderOr, UnderAnd, Step;
      ghost var now := c;
      SameConfig(c);
      while operators != []
        invariant Valid() && Matches(now) && ReducedFrom(c, now)
        invariant |nodes| + |operators| == |old(nodes)| + |old(operators)|
        decreases |operators|
      {
        TopOperator(now.levels);
        if operators[|operators| - 1] == OpenParen {
          TopIsOpen(now);
          CollapsedReached(c, now);
          NotOver();
          return Err(Syntax);
        }
        ReduceConfigKeeps(c, now);
        r := PopReduce(now);
        if r.Err? {
          OverCollapsed(limits, c, ReduceConfig(now));
          return;
        }
        now := ReduceConfig(now);
      }
      TopOperator(now.levels);
      OneLevelLeft(now);
      return Ok(());
    }
  }

  /** A node beyond a limit takes the trees beyond it. */
  lemma LastOver(limits: Limits, below: seq<Expr>, t: Expr)
    requires limits.nodes < TotalSize(below) + Size(t) || limits.depth < Depth(t)
    ensures OverTrees(limits, below + [t])
  {
    hide TotalSize, Size, Depth;
    SnocSize(below, t);
    assert (below + [t])[|below|] == t;
  }

  lemma LeafOverLimit(limits: Limits, below: seq<Expr>, leaf: Leaf)
    requires limits.nodes <= TotalSize(below) || limits.depth < 1
    ensures OverTrees(limits, below + [Lit(leaf)])
  {
    hide TotalSize, OverTrees;
    LastOver(limits, below, Lit(leaf));
  }

  lemma NotOverLimit(limits: Limits, below: seq<Expr>, x: Expr)
    requires limits.nodes <= TotalSize(below + [x]) || limits.depth < Depth(Not(x))
    ensures OverTrees(limits, below + [Not(x)])
  {
    hide TotalSize, OverTrees;
    SnocSize(below, x);
    LastOver(limits, below, Not(x));
  }

  lemma PairOverLimit(limits: Limits, below: seq<Expr>, l: Expr, x: Expr, t: Expr)
    requires t == And(l, x) || t == Or(l, x)
    requires limits.nodes <= TotalSize(below + [l] + [x]) || limits.depth < Depth(t)
    ensures OverTrees(limits, below + [t])
  {
    hide TotalSize, OverTrees;
    SnocSize(below, l);
    SnocSize(below + [l], x);
    LastOver(limits, below, t);
  }

  lemma LeafLaid(nodes: seq<Node>, depths: seq<nat>, values: seq<nat>, trees: seq<Expr>, leaf: Leaf)
    requires Laid(nodes, depths, values, trees)
    ensures Laid(nodes + [LitNode(leaf)], depths + [1], values + [|nodes|], trees + [Lit(leaf)])
  {
    hide FlattenAll, Roots;
    Snoc(trees, Lit(leaf));
    assert trees + [] == trees;
    PushLaid(nodes, depths, values, trees, [], LitNode(leaf), Lit(leaf));
  }

  lemma LeafDepth(leaf: Leaf)
    ensures Depth(Lit(leaf)) == 1
  {
  }

  lemma OperandStep(c: Config, leaf: Leaf)
    requires c.levels != [] && c.operand.None?
    ensures var next := Step(c, Token.Operand(leaf));
            && next.Some? && next.value.levels == c.levels && ConfigTrees(next.value) == ConfigTrees(c) + [Lit(leaf)]
  {
    hide LevelsTrees;
  }

  lemma ReducedLevels(c: Config)
    requires c.levels != [] && c.operand.Some? && LevelOps(Innermost(c)) != []
    ensures |ReduceConfig(c).levels| == |c.levels|
  {
  }

  lemma TopIsOpen(c: Config)
    requires c.levels != []
    requires var ops := LevelsOps(c.levels); ops != [] && ops[|ops| - 1] == OpenParen
    ensures LevelOps(Innermost(c)) == [] && |c.levels| > 1
  {
    hide LevelsOps;
    TopOperator(c.levels);
    if LevelOps(Innermost(c)) != [] {
      LevelTop(Innermost(c));
    }
  }

  lemma OneLevelLeft(c: Config)
    requires c.levels != [] && c.operand.Some? && LevelsOps(c.levels) == []
    ensures |c.levels| == 1 && UnderOr(Innermost(c), c.operand.value) == c.operand.value
    ensures ConfigTrees(c) == [c.operand.value.tree]
  {
    hide UnderOr;
    TopOperator(c.levels);
    BareLevel(Innermost(c), c.operand.value);
    assert c.levels[..0] == [];
    assert LevelsTrees(c.levels) == LevelsTrees(c.levels[..0]) + LevelTrees(FRESH);
  }

  lemma TopValue(nodes: seq<Node>, depths: seq<nat>, values: seq<nat>, below: seq<Expr>, x: Expr)
    requires Laid(nodes, depths, values, below + [x])
    ensures |values| == |below| + 1 && values[..|below|] == Roots(below)
    ensures values[|below|] == |nodes| - 1 && |depths| == |nodes|
    ensures values[|below|] < |depths| && depths[values[|below|]] == Depth(x) &&
              Depth(Not(x)) == Depth(x) + 1 <= |nodes| + 1
  {
    hide FlattenAll, TotalSize, Roots, Flatten;
    Snoc(below, x);
    assert (below + [x])[|below|] == x;
  }

  lemma LaidCounts(nodes: seq<Node>, depths: seq<nat>, values: seq<nat>, trees: seq<Expr>)
    requires Laid(nodes, depths, values, trees)
    ensures |values| == |trees| <= |nodes| == |depths|
  {
  }

  lemma SecondValue(nodes: seq<Node>, depths: seq<nat>, values: seq<nat>, below: seq<Expr>, l: Expr, x: Expr)
    requires Laid(nodes, depths, values, below + [l] + [x])
    ensures |values| == |below| + 2 && values[..|below|] == Roots(below)
    ensures values[|below|] == TotalSize(below) + Size(l) - 1
    ensures values[|below|] < |depths| && depths[values[|below|]] == Depth(l)
    ensures Depth(And(l, x)) == Depth(Or(l, x)) == Max(Depth(l), Depth(x)) + 1 <= |nodes| + 1
  {
    hide FlattenAll, TotalSize, Roots, Flatten, Size, Depth;
    Snoc(below, l);
    Snoc(below + [l], x);
    assert (below + [l] + [x])[|below|] == l;
    PairDepth(l, x);
  }

  lemma PairDepth(l: Expr, x: Expr)
    ensures Depth(And(l, x)) == Depth(Or(l, x)) == Max(Depth(l), Depth(x)) + 1 <= Size(l) + Size(x) + 1
  {
  }

  lemma NotLaid(nodes: seq<Node>, depths: seq<nat>, values: seq<nat>, below: seq<Expr>, x: Expr, right: nat)
    requires Laid(nodes, depths, values, below + [x]) && right == |nodes| - 1
    ensures Laid(nodes + [NotNode(right)], depths + [Depth(Not(x))], Roots(below) + [|nodes|], below + [Not(x)])
  {
    hide Laid, FlattenAll, TotalSize, Roots, Flatten, Size, Depth;
    LaidNodes(nodes, depths, values, below + [x]);
    Snoc(below, x);
    FlattenNot(below, x);
    RootsBelow(below, x, x);
    PushLaid(nodes, depths, values, below, [x], NotNode(right), Not(x));
  }

  lemma LaidNodes(nodes: seq<Node>, depths: seq<nat>, values: seq<nat>, trees: seq<Expr>)
    requires Laid(nodes, depths, values, trees)
    ensures nodes == FlattenAll(trees)
  {
  }

  lemma PairLaid(nodes: seq<Node>, depths: seq<nat>, values: seq<nat>, below: seq<Expr>, l: Expr, x: Expr, left: nat,
      right: nat)
    requires Laid(nodes, depths, values, below + [l] + [x])
    requires left == TotalSize(below) + Size(l) - 1 && right == |nodes| - 1
    ensures Laid(nodes + [AndNode(left, right)], depths + [Depth(And(l, x))], Roots(below) + [|nodes|],
              below + [And(l, x)])
    ensures Laid(nodes + [OrNode(left, right)], depths + [Depth(Or(l, x))], Roots(below) + [|nodes|],
              below + [Or(l, x)])
  {
    hide Laid, FlattenAll, TotalSize, Roots, Flatten, Size, Depth;
    assert below + [l] + [x] == below + [l, x];
    LaidNodes(nodes, depths, values, below + [l, x]);
    Snoc(below, l);
    Snoc(below + [l], x);
    RootsBelow(below, l, x);
    FlattenAnd(below, l, x);
    PushLaid(nodes, depths, values, below, [l, x], AndNode(left, right), And(l, x));
    FlattenOr(below, l, x);
    PushLaid(nodes, depths, values, below, [l, x], OrNode(left, right), Or(l, x));
  }

  // ----- the token loop -----

  /** What a token sequence means; the empty one matches nothing. */
  ghost predicate Denotes(tokens: seq<Token>, e: Expr) {
    if tokens == [] then e == Lit(Nothing) else DerivesOr(tokens, e)
  }

  lemma Advance(tokens: seq<Token>, i: nat, c: Config)
    requires i < |tokens| && c.levels != [] && Run(START, tokens[..i]) == Some(c)
    ensures Run(START, tokens[..i + 1]) == Step(c, tokens[i])
  {
    RunAppend(START, tokens[..i], [tokens[i]]);
    RunOne(c, tokens[i]);
    assert tokens[..i + 1] == tokens[..i] + [tokens[i]];
  }

  lemma Stuck(tokens: seq<Token>, i: nat, c: Config)
    requires i < |tokens| && c.levels != [] && Run(START, tokens[..i]) == Some(c) && Step(c, tokens[i]).None?
    ensures forall e :: !DerivesOr(tokens, e)
  {
    RunAppend(START, tokens[..i], tokens[i..]);
    assert tokens == tokens[..i] + tokens[i..];
    assert tokens[i..][0] == tokens[i];
    NotParsed(tokens);
  }

  lemma NotParsed(tokens: seq<Token>)
    requires Parse(tokens).None?
    ensures forall e :: !DerivesOr(tokens, e)
  {
    forall e ensures !DerivesOr(tokens, e) {
      ParseIsGrammar(tokens, e);
    }
  }

  lemma {:induction false} NestingIsPending(levels: seq<Level>)
    requires levels != []
    ensures |levels| - 1 <= |LevelsOps(levels)|
    decreases |levels|
  {
    if |levels| > 1 {
      NestingIsPending(levels[..|levels| - 1]);
    }
  }

  lemma OneTree(nodes: seq<Node>, depths: seq<nat>, values: seq<nat>, e: Expr)
    requires Laid(nodes, depths, values, [e])
    ensures nodes == Flatten(e, 0) && values == [Size(e) - 1] && |nodes| == Size(e)
  {
    assert [e][..0] == [];
    assert [] + [e] == [e];
    Snoc([], e);
  }

  /** When a token can be read, and what it does to the operand slot and the nesting. */
  lemma StepShape(c: Config, token: Token)
    requires c.levels != []
    ensures Step(c, token).Some? == (if token.Operand? || token == NotOp || token == Open then c.operand.None?
                                     else c.operand.Some? && (token == Close ==> |c.levels| > 1))
    ensures Step(c, token).Some? ==>
              var next := Step(c, token).value;
              && next.levels != [] && (next.operand.Some? <==> token.Operand? || token == Close)
              && |next.levels| == |c.levels| + (if token == Open then 1 else if token == Close then -1 else 0)
  {
  }

  lemma OperandHasNode(c: Config)
    requires c.operand.Some?
    ensures ConfigTrees(c) != []
  {
  }

  /** Reads one token. */
  method Read(b: Builder, token: Token, needOperand: bool, parentheses: nat, ghost c: Config)
      returns (r: Result<(bool, nat), ParseError>)
    requires b.Valid() && b.Matches(c) && needOperand == c.operand.None? &&
               parentheses == |c.levels| - 1 <= b.limits.depth
    modifies b
    ensures r.Ok? ==> Step(c, token).Some? && b.Valid() && b.Matches(Step(c, token).value)
    ensures r.Ok? ==> Reading(c, token, b.limits) == Ok(Step(c, token).value)
    ensures r.Err? ==> Reading(c, token, b.limits) == Err(r.error)
    ensures r.Ok? ==>
              var next := Step(c, token).value;
              && r.value == (next.operand.None?, |next.levels| - 1)
              && 0 < |b.nodes| + |b.operators| <= |old(b.nodes)| + |old(b.operators)| + 1
    ensures r == Err(Syntax) ==> Step(c, token).None?
    ensures r == Err(Limit) ==> b.Tight(|old(b.nodes)| + |old(b.operators)| + 1)
  {
    hide Laid, ConfigTrees, LevelsOps, LevelOps, Step, UnderOr, OverTrees, Collapsed;
    StepShape(c, token);
    NestingIsPending(c.levels);
    if (token.Operand? || token == NotOp || token == Open) != needOperand {
      return Err(Syntax);
    }
    var s: Result<(), ParseError>;
    match token {
      case Open =>
        if parentheses + 1 > b.limits.depth {
          return Err(Limit);
        }
        s := b.Operator(OpenParen, c);
      case Close =>
        s := b.CloseParen(c);
        if Step(c, Close).Some? {
          AfterCloseTrees(c);
        }
        if s.Ok? {
          OperandHasNode(Step(c, Close).value);
          LaidCounts(b.nodes, b.depths, b.values, b.trees);
        }
      case NotOp =>
        s := b.Operator(NotSign, c);
      case AndOp =>
        s := b.Operator(AndSign, c);
      case OrOp =>
        s := b.Operator(OrSign, c);
      case Operand(leaf) =>
        s := b.Operand(leaf, c);
    }
    if s.Err? {
      assert s.error == Syntax || s.error == Limit;
      return Err(s.error);
    }
    b.NotOver();
    if token == Close && parentheses == 0 {
      return Err(Syntax);
    }
    return Ok((!(token.Operand? || token == Close),
               if token == Open then parentheses + 1 else if token == Close then parentheses - 1 else parentheses));
  }

  /** The query of a builder whose tokens are used up. */
  method FinishQuery(b: Builder, parentheses: nat, ghost c: Config) returns (r: Result<Query, ParseError>)
    requires b.Valid() && b.Matches(c) && c.operand.Some? && parentheses == |c.levels| - 1
    modifies b
    ensures r.Ok? ==>
              && Finish(c).Some?
              && var e := Finish(c).value;
              && r.value == Query(Flatten(e, 0), Size(e) - 1) && Size(e) <= b.limits.nodes && Depth(e) <= b.limits.depth
    ensures r == Err(Syntax) ==> Finish(c).None?
    ensures r == Err(Limit) ==> b.Tight(|old(b.nodes)| + |old(b.operators)|)
    ensures r.Ok? ==> Ending(c, b.limits) == Ok(Finish(c).value)
    ensures r.Err? ==> Ending(c, b.limits) == Err(r.error)
  {
    hide OverTrees;
    hide Laid, ConfigTrees, LevelsOps, LevelOps, Step, UnderOr, Flatten, Size, Depth;
    var s := b.ReduceAll(c);
    if s.Err? {
      assert s.error == Syntax || s.error == Limit;
      return Err(s.error);
    }
    OneTree(b.nodes, b.depths, b.values, b.trees[0]);
    b.NotOver();
    OneLevel(c);
    if |b.values| != 1 || parentheses != 0 {
      return Err(Syntax);
    }
    return Ok(Query(b.nodes, b.values[0]));
  }

  /** What is read: with no tokens, the operand that matches nothing. */
  function Spelled(tokens: seq<Token>): seq<Token> {
    if tokens == [] then [Token.Operand(Nothing)] else tokens
  }

  /**
   The parser returns the flattened tree of the limited machine's verdict, or its error. So it
   accepts exactly the sentences of the grammar whose tree, operator stack and nesting fit the
   limits; a sentence that does not fit is a limit error, and a limit error is possible only
   when a limit is below the number of tokens.
   */
  method ParseTokens(tokens: seq<Token>, limits: Limits) returns (r: Result<Query, ParseError>)
    ensures r.Ok? ==> exists e :: Denotes(tokens, e) && r.value == Query(Flatten(e, 0), Size(e) - 1)
                                  && Size(e) <= limits.nodes && Depth(e) <= limits.depth
    ensures r == Err(Syntax) ==> forall e :: !Denotes(tokens, e)
    ensures r == Err(Limit) ==> limits.nodes < Max(1, |tokens|) || limits.depth < Max(1, |tokens|)
    ensures forall e | DerivesOr(tokens, e) ::
              r == if Fits(limits, tokens, e) then Ok(Query(Flatten(e, 0), Size(e) - 1)) else Err(Limit)
    ensures var v := Verdict(START, Spelled(tokens), limits);
            r == if v.Ok? then Ok(Query(Flatten(v.value, 0), Size(v.value) - 1)) else Err(v.error)
  {
    r := ParseUnderLimits(tokens, limits);
    hide Verdict, DerivesOr, Fits, Flatten, Size, Depth;
    forall e | DerivesOr(tokens, e)
      ensures r == if Fits(limits, tokens, e) then Ok(Query(Flatten(e, 0), Size(e) - 1)) else Err(Limit)
    {
      SentenceVerdict(tokens, limits, e);
      NonemptyOr(tokens, e);
    }
  }

  method ParseUnderLimits(tokens: seq<Token>, limits: Limits) returns (r: Result<Query, ParseError>)
    ensures r.Ok? ==> exists e :: Denotes(tokens, e) && r.value == Query(Flatten(e, 0), Size(e) - 1)
                                  && Size(e) <= limits.nodes && Depth(e) <= limits.depth
    ensures r == Err(Syntax) ==> forall e :: !Denotes(tokens, e)
    ensures r == Err(Limit) ==> limits.nodes < Max(1, |tokens|) || limits.depth < Max(1, |tokens|)
    ensures var v := Verdict(START, Spelled(tokens), limits);
            r == if v.Ok? then Ok(Query(Flatten(v.value, 0), Size(v.value) - 1)) else Err(v.error)
  {
    hide Laid, ConfigTrees, LevelsOps, LevelOps, Step, Run, DerivesOr, Flatten, Size, Depth, UnderOr, Verdict, Reading,
        Ending, OverTrees;
    var b := new Builder(limits);
    var needOperand, parentheses := true, 0;
    ghost var c := START;
    var i := 0;
    StartRun(tokens);
    while i < |tokens|
      invariant i <= |tokens| && b.limits == limits && fresh(b) && b.Valid() && b.Matches(c)
      invariant Run(START, tokens[..i]) == Some(c)
      invariant needOperand == c.operand.None? && parentheses == |c.levels| - 1 <= limits.depth
      invariant |b.nodes| + |b.operators| <= i
      invariant Verdict(START, tokens, limits) == Verdict(c, tokens[i..], limits)
      invariant if i == 0 then c == START else b.nodes != [] || b.operators != []
    {
      var s := Read(b, tokens[i], needOperand, parentheses, c);
      VerdictStep(c, tokens, i, limits);
      if s.Err? {
        if s.error == Syntax {
          Stuck(tokens, i, c);
        }
        return Err(s.error);
      }
      needOperand, parentheses := s.value.0, s.value.1;
      ReadingFits(c, tokens[i], limits);
      Advance(tokens, i, c);
      c := Step(c, tokens[i]).value;
      i := i + 1;
    }
    assert tokens[..i] == tokens && tokens[i..] == [];
    VerdictEnd(c, limits);
    if b.nodes == [] && b.operators == [] {
      var s := b.Operand(Nothing, c);
      VerdictOfNothing(limits);
      if s.Err? {
        return Err(Limit);
      }
      EmptyFinish();
      b.NotOver();
      assert !StepOver(limits, START, Token.Operand(Nothing));
      r := FinishQuery(b, parentheses, Step(c, Token.Operand(Nothing)).value);
    } else {
      if needOperand {
        Unfinished(tokens, c);
        EndingNeedsOperand(c, limits);
        return Err(Syntax);
      }
      r := FinishQuery(b, parentheses, c);
      if r.Ok? {
        ParseIsGrammar(tokens, Finish(c).value);
      } else if r.error == Syntax {
        NotParsed(tokens);
      }
    }
  }

  lemma StartRun(tokens: seq<Token>)
    ensures Run(START, tokens[..0]) == Some(START)
  {
  }

  lemma EmptyFinish()
    ensures Step(START, Token.Operand(Nothing)).Some? &&
              Finish(Step(START, Token.Operand(Nothing)).value) == Some(Lit(Nothing))
    ensures |Step(START, Token.Operand(Nothing)).value.levels| == 1 &&
              Step(START, Token.Operand(Nothing)).value.operand.Some?
  {
  }

  lemma Unfinished(tokens: seq<Token>, c: Config)
    requires Run(START, tokens) == Some(c) && c.operand.None?
    ensures forall e :: !DerivesOr(tokens, e)
  {
    NotParsed(tokens);
  }

  lemma VerdictStep(c: Config, tokens: seq<Token>, i: nat, limits: Limits)
    requires c.levels != [] && i < |tokens|
    ensures var next := Reading(c, tokens[i], limits);
            Verdict(c, tokens[i..], limits) == if next.Err? then Err(next.error)
                else Verdict(next.value, tokens[i + 1..], limits)
  {
    hide Reading, Ending;
    assert tokens[i..][0] == tokens[i] && tokens[i..][1..] == tokens[i + 1..];
  }

  lemma VerdictEnd(c: Config, limits: Limits)
    requires c.levels != []
    ensures Verdict(c, [], limits) == Ending(c, limits)
  {
  }

  lemma EndingNeedsOperand(c: Config, limits: Limits)
    requires c.levels != [] && c.operand.None?
    ensures Ending(c, limits) == Err(Syntax)
  {
  }

  lemma ReadingFits(c: Config, token: Token, limits: Limits)
    requires c.levels != [] && Reading(c, token, limits).Ok?
    ensures |Reading(c, token, limits).value.levels| - 1 <= limits.depth
  {
    hide OverTrees;
  }

  lemma VerdictOfNothing(limits: Limits)
    ensures var next := Step(START, Token.Operand(Nothing)).value;
            && next.levels != []
            && Verdict(START, [Token.Operand(Nothing)], limits)
                 == if StepOver(limits, START, Token.Operand(Nothing)) then Err(Limit) else Ending(next, limits)
  {
    hide OverTrees, Ending;
    assert [Token.Operand(Nothing)][1..] == [];
  }
}
