/** When the parser stops at a limit, said of machine states and of the sentences it reads. */
module ParserLimits {
  import opened Outcomes
  import opened QueryTree
  import opened ParserMachine
  import opened ParserStacks

  datatype ParseError = Syntax | Limit

  datatype Limits = Limits(nodes: nat, depth: nat)

  /** The trees built so far have too many nodes, or one is too deep. */
  predicate OverTrees(limits: Limits, trees: seq<Expr>) {
    TotalSize(trees) > limits.nodes || exists k :: 0 <= k < |trees| && Depth(trees[k]) > limits.depth
  }

  /** The state's trees, operator stack or nesting exceed a limit. */
  predicate Over(limits: Limits, c: Config)
    requires c.levels != []
  {
    || OverTrees(limits, ConfigTrees(c))
    || |LevelsOps(c.levels)| > limits.nodes
    || |c.levels| - 1 > limits.depth
  }

  /** Reading a token leads to a state that exceeds a limit. */
  ghost predicate StepOver(limits: Limits, c: Config, token: Token) {
    && c.levels != [] && Step(c, token).Some?
    && Step(c, token).value.levels != [] && Over(limits, Step(c, token).value)
  }

  /** The trees once the innermost level's operators have all been applied. */
  function Collapsed(c: Config): seq<Expr>
    requires c.levels != [] && c.operand.Some?
  {
    LevelsTrees(c.levels[..|c.levels| - 1]) + [UnderOr(Innermost(c), c.operand.value).tree]
  }

  /** One token under limits: the next state, or the fault that stops the parser. */
  function Reading(c: Config, token: Token, limits: Limits): (r: Result<Config, ParseError>)
    requires c.levels != []
    ensures r.Ok? ==> r.value.levels != []
  {
    var next := Step(c, token);
    if next.None? then
      if token == Close && c.operand.Some? && OverTrees(limits, Collapsed(c)) then Err(Limit) else Err(Syntax)
    else if Over(limits, next.value) then Err(Limit)
    else Ok(next.value)
  }

  /** The end of the tokens under limits. */
  function Ending(c: Config, limits: Limits): Result<Expr, ParseError>
    requires c.levels != []
  {
    if c.operand.None? then Err(Syntax)
    else if OverTrees(limits, Collapsed(c)) then Err(Limit)
    else if |c.levels| > 1 then Err(Syntax)
    else Ok(UnderOr(Innermost(c), c.operand.value).tree)
  }

  /** What the machine makes of the remaining tokens under limits: a tree, or the first fault. */
  function Verdict(c: Config, ts: seq<Token>, limits: Limits): Result<Expr, ParseError>
    requires c.levels != []
    decreases |ts|
  {
    if ts == [] then Ending(c, limits)
    else
      var next := Reading(c, ts[0], limits);
      if next.Err? then Err(next.error) else Verdict(next.value, ts[1..], limits)
  }

  // ----- sizes and depths across a collapse -----

  lemma {:induction false} NotSizes(n: nat, e: Expr)
    ensures Size(NotTree(n, e)) == Size(e) + n && Depth(NotTree(n, e)) == Depth(e) + n
  {
    if n > 0 {
      NotSizes(n - 1, e);
    }
  }

  function PartSize(part: Option<Part>): nat {
    if part.Some? then Size(part.value.tree) else 0
  }

  function Shallow(part: Option<Part>, depth: nat): bool {
    part.Some? ==> Depth(part.value.tree) <= depth
  }

  /** A level's trees and its operand are no larger and no deeper than what they collapse to. */
  lemma UnderSizes(level: Level, x: Part)
    ensures var t := UnderAnd(level, x).tree;
            && PartSize(level.andLeft) + Size(x.tree) <= Size(t) && Depth(x.tree) <= Depth(t) &&
                 Shallow(level.andLeft, Depth(t))
    ensures var t, e := UnderAnd(level, x).tree, UnderOr(level, x).tree;
            && PartSize(level.orLeft) + Size(t) <= Size(e) && Depth(t) <= Depth(e) && Shallow(level.orLeft, Depth(e))
  {
    NotSizes(level.nots, x.tree);
  }

  lemma LevelSizes(below: seq<Expr>, level: Level, operand: Option<Part>)
    ensures TotalSize(below + LevelTrees(level) + OperandTree(operand))
              == TotalSize(below) + PartSize(level.orLeft) + PartSize(level.andLeft) + PartSize(operand)
  {
    hide Size, TotalSize;
    var a := below + if level.orLeft.Some? then [level.orLeft.value.tree] else [];
    var b := a + if level.andLeft.Some? then [level.andLeft.value.tree] else [];
    OneTreeMore(below, level.orLeft);
    OneTreeMore(a, level.andLeft);
    OneTreeMore(b, operand);
    assert below + LevelTrees(level) == b;
  }

  lemma OneTreeMore(below: seq<Expr>, part: Option<Part>)
    ensures TotalSize(below + if part.Some? then [part.value.tree] else []) == TotalSize(below) + PartSize(part)
  {
    hide Size, TotalSize;
    if part.Some? {
      SnocSize(below, part.value.tree);
    } else {
      assert below + [] == below;
    }
  }

  /** Some tree of the list is at least as deep as `t`. */
  ghost predicate Matched(t: Expr, b: seq<Expr>) {
    exists j :: 0 <= j < |b| && Depth(t) <= Depth(b[j])
  }

  ghost predicate Deeper(a: seq<Expr>, b: seq<Expr>) {
    forall k | 0 <= k < |a| :: Matched(a[k], b)
  }

  /** The second list has at least the nodes of the first, and no tree of the first is deeper. */
  ghost predicate Grows(a: seq<Expr>, b: seq<Expr>) {
    TotalSize(a) <= TotalSize(b) && Deeper(a, b)
  }

  /** More nodes and no shallower trees: over a limit stays over it. */
  lemma OverGrows(limits: Limits, a: seq<Expr>, b: seq<Expr>)
    requires OverTrees(limits, a) && Grows(a, b)
    ensures OverTrees(limits, b)
  {
    hide TotalSize, Depth;
    if TotalSize(a) <= limits.nodes {
      var k :| 0 <= k < |a| && Depth(a[k]) > limits.depth;
      assert Matched(a[k], b);
      var j :| 0 <= j < |b| && Depth(a[k]) <= Depth(b[j]);
    }
  }

  lemma DeeperParts(below: seq<Expr>, level: Level, operand: Option<Part>, b: seq<Expr>, top: Expr)
    requires below <= b && top in b
    requires Shallow(level.orLeft, Depth(top)) || (level.orLeft.Some? && level.orLeft.value.tree in b)
    requires Shallow(level.andLeft, Depth(top)) && Shallow(operand, Depth(top))
    ensures Deeper(below + LevelTrees(level) + OperandTree(operand), b)
  {
    hide Depth;
    var a := below + LevelTrees(level) + OperandTree(operand);
    var at :| 0 <= at < |b| && b[at] == top;
    forall k | 0 <= k < |a| ensures Matched(a[k], b) {
      if k < |below| {
        assert a[k] == b[k];
      } else if level.orLeft.Some? && a[k] == level.orLeft.value.tree && level.orLeft.value.tree in b {
        var j :| 0 <= j < |b| && b[j] == a[k];
        assert Depth(a[k]) <= Depth(b[j]);
      } else {
        assert Depth(a[k]) <= Depth(b[at]);
      }
    }
  }

  /** The trees of a state with a given innermost level and operand. */
  lemma InnermostTrees(c: Config, level: Level, operand: Option<Part>)
    requires c.levels != []
    ensures ConfigTrees(WithInnermost(c, level, operand))
              == LevelsTrees(c.levels[..|c.levels| - 1]) + LevelTrees(level) + OperandTree(operand)
  {
    hide LevelsOps, LevelOps, OuterOps;
    ReplacedStacks(c, level, operand);
  }

  lemma GrowsTrans(a: seq<Expr>, b: seq<Expr>, c: seq<Expr>)
    requires Grows(a, b) && Grows(b, c)
    ensures Grows(a, c)
  {
    hide TotalSize, Depth;
    forall k | 0 <= k < |a| ensures Matched(a[k], c) {
      var i :| 0 <= i < |b| && Depth(a[k]) <= Depth(b[i]);
      assert Matched(b[i], c);
      var j :| 0 <= j < |c| && Depth(b[i]) <= Depth(c[j]);
    }
  }

  /** A state reached by reductions has no more than its level collapses to. */
  lemma GrowsCollapsed(start: Config, now: Config)
    requires ReducedFrom(start, now)
    ensures Grows(ConfigTrees(now), Collapsed(start))
  {
    hide UnderOr, UnderAnd, LevelsTrees, LevelTrees, ConfigTrees, TotalSize;
    var below := LevelsTrees(start.levels[..|start.levels| - 1]);
    var level, x := Innermost(now), now.operand.value;
    var e := UnderOr(level, x).tree;
    InnermostTrees(start, level, Some(x));
    UnderSizes(level, x);
    LevelSizes(below, level, Some(x));
    SnocSize(below, e);
    DeeperParts(below, level, Some(x), Collapsed(start), e);
  }

  /** The same for what AND collapses. */
  lemma GrowsAnd(start: Config, now: Config)
    requires ReducedFrom(start, now) && KeepsAnd(start, now)
    ensures Step(start, AndOp).Some? && Grows(ConfigTrees(now), ConfigTrees(Step(start, AndOp).value))
  {
    hide UnderOr, UnderAnd, LevelsTrees, ConfigTrees, TotalSize, Step, Size, Depth;
    var below := LevelsTrees(start.levels[..|start.levels| - 1]);
    var level, x := Innermost(now), now.operand.value;
    var part := UnderAnd(level, x);
    var next := Level(level.orLeft, Some(part), 0);
    var b := below + LevelTrees(next) + OperandTree(None);
    SameConfig(start);
    StepOperator(start, Innermost(start), start.operand.value);
    InnermostTrees(start, level, Some(x));
    InnermostTrees(start, next, None);
    UnderSizes(level, x);
    LevelSizes(below, level, Some(x));
    LevelSizes(below, next, None);
    assert part.tree in LevelTrees(next) && (level.orLeft.Some? ==> level.orLeft.value.tree in LevelTrees(next));
    DeeperParts(below, level, Some(x), b, part.tree);
  }

  /** OR collapses the whole level. */
  lemma AfterOrTrees(start: Config)
    requires start.levels != [] && start.operand.Some?
    ensures Step(start, OrOp).Some? && ConfigTrees(Step(start, OrOp).value) == Collapsed(start)
  {
    hide UnderOr, UnderAnd, LevelsTrees, ConfigTrees, Step;
    var below := LevelsTrees(start.levels[..|start.levels| - 1]);
    var part := UnderOr(Innermost(start), start.operand.value);
    SameConfig(start);
    StepOperator(start, Innermost(start), start.operand.value);
    InnermostTrees(start, Level(Some(part), None, 0), None);
    assert below + LevelTrees(Level(Some(part), None, 0)) + OperandTree(None) == Collapsed(start);
  }

  /** A reduction that goes over a limit means the collapsed level does. */
  lemma OverCollapsed(limits: Limits, start: Config, now: Config)
    requires ReducedFrom(start, now) && OverTrees(limits, ConfigTrees(now))
    ensures OverTrees(limits, Collapsed(start))
  {
    hide Grows, OverTrees, Collapsed, ConfigTrees, UnderOr;
    GrowsCollapsed(start, now);
    OverGrows(limits, ConfigTrees(now), Collapsed(start));
  }

  /** A reduction that goes over a limit means the state after the operator does. */
  lemma OverBinary(limits: Limits, start: Config, now: Config, op: Op)
    requires ReducedFrom(start, now) && (op == AndSign || op == OrSign) && (op == AndSign ==> KeepsAnd(start, now))
    requires OverTrees(limits, ConfigTrees(now))
    ensures Step(start, TokenOf(op)).Some? && OverTrees(limits, ConfigTrees(Step(start, TokenOf(op)).value))
  {
    hide Step, ConfigTrees, Grows, OverTrees, Collapsed, UnderOr, UnderAnd;
    if op == AndSign {
      GrowsAnd(start, now);
      OverGrows(limits, ConfigTrees(now), ConfigTrees(Step(start, AndOp).value));
    } else {
      OverCollapsed(limits, start, now);
      AfterOrTrees(start);
    }
  }

  /** With no operator of its own left, the innermost level has collapsed. */
  lemma CollapsedReached(start: Config, now: Config)
    requires ReducedFrom(start, now) && LevelOps(Innermost(now)) == []
    ensures ConfigTrees(now) == Collapsed(start)
  {
    hide UnderOr, UnderAnd, LevelsTrees, ConfigTrees;
    BareLevel(Innermost(now), now.operand.value);
    InnermostTrees(start, Innermost(now), now.operand);
    var below := LevelsTrees(start.levels[..|start.levels| - 1]);
    assert below + LevelTrees(FRESH) + OperandTree(now.operand) == below + [now.operand.value.tree];
  }

  // ----- sentences -----

  /** Reading a token never loses nodes or depth. */
  lemma StepGrows(c: Config, token: Token)
    requires c.levels != [] && Step(c, token).Some?
    ensures Step(c, token).value.levels != [] && Grows(ConfigTrees(c), ConfigTrees(Step(c, token).value))
  {
    hide UnderOr, UnderAnd, LevelsTrees, LevelTrees, Grows, Collapsed, ConfigTrees;
    StillLevels(c, token);
    if c.operand.Some? {
      SameConfig(c);
    }
    match token
    case Operand(leaf) =>
      OperandTrees(c, leaf);
      GrowsByOne(ConfigTrees(c), Lit(leaf));
    case NotOp =>
      PushPrefix(c, NotSign);
      GrowsSelf(ConfigTrees(c));
    case Open =>
      PushPrefix(c, OpenParen);
      GrowsSelf(ConfigTrees(c));
    case AndOp =>
      GrowsAnd(c, c);
    case OrOp =>
      GrowsCollapsed(c, c);
      AfterOrTrees(c);
    case Close =>
      GrowsCollapsed(c, c);
      AfterCloseTrees(c);
  }

  lemma StillLevels(c: Config, token: Token)
    requires c.levels != [] && Step(c, token).Some?
    ensures Step(c, token).value.levels != []
  {
  }

  lemma OperandTrees(c: Config, leaf: Leaf)
    requires c.levels != [] && c.operand.None?
    ensures ConfigTrees(Step(c, Operand(leaf)).value) == ConfigTrees(c) + [Lit(leaf)]
  {
    hide LevelsTrees;
  }

  lemma AfterCloseTrees(c: Config)
    requires c.levels != [] && Step(c, Close).Some?
    ensures ConfigTrees(Step(c, Close).value) == Collapsed(c)
  {
    hide UnderOr, LevelsTrees;
  }

  lemma GrowsSelf(a: seq<Expr>)
    ensures Grows(a, a)
  {
    forall k | 0 <= k < |a| ensures Matched(a[k], a) {
      assert Depth(a[k]) <= Depth(a[k]);
    }
  }

  lemma GrowsByOne(a: seq<Expr>, e: Expr)
    ensures Grows(a, a + [e])
  {
    hide TotalSize;
    SnocSize(a, e);
    forall k | 0 <= k < |a| ensures Matched(a[k], a + [e]) {
      assert (a + [e])[k] == a[k];
    }
  }

  /** Every state on the way to a finished sentence has no more than its tree. */
  lemma {:induction false} RunGrows(c: Config, ts: seq<Token>, e: Expr)
    requires c.levels != [] && Run(c, ts).Some? && Finish(Run(c, ts).value) == Some(e)
    ensures Grows(ConfigTrees(c), [e])
    decreases |ts|
  {
    hide UnderOr, Grows, ConfigTrees, Step;
    if ts == [] {
      SameConfig(c);
      GrowsCollapsed(c, c);
      OneLevel(c);
    } else {
      StepGrows(c, ts[0]);
      RunGrows(Step(c, ts[0]).value, ts[1..], e);
      GrowsTrans(ConfigTrees(c), ConfigTrees(Step(c, ts[0]).value), [e]);
    }
  }

  lemma OneLevel(c: Config)
    requires |c.levels| == 1 && c.operand.Some?
    ensures Collapsed(c) == [UnderOr(Innermost(c), c.operand.value).tree]
  {
    assert c.levels[..0] == [];
  }

  /** The operator stack and the nesting of a state are within limits. */
  predicate HeightFits(limits: Limits, c: Option<Config>) {
    c.Some? && c.value.levels != [] ==>
        |LevelsOps(c.value.levels)| <= limits.nodes && |c.value.levels| - 1 <= limits.depth
  }

  /** Every state reached inside the tokens has a fitting stack and nesting. */
  ghost predicate HeightsFit(limits: Limits, c: Config, ts: seq<Token>)
    requires c.levels != []
  {
    forall k | 0 < k <= |ts| :: HeightFits(limits, Run(c, ts[..k]))
  }

  lemma HeightsCons(limits: Limits, c: Config, ts: seq<Token>)
    requires c.levels != [] && ts != [] && Step(c, ts[0]).Some? && Step(c, ts[0]).value.levels != []
    ensures HeightsFit(limits, c, ts) ==
              (HeightFits(limits, Step(c, ts[0])) && HeightsFit(limits, Step(c, ts[0]).value, ts[1..]))
  {
    hide HeightFits, Step;
    var next := Step(c, ts[0]).value;
    assert ts[..1] == [ts[0]];
    RunOne(c, ts[0]);
    forall k | 0 < k < |ts| ensures Run(c, ts[..k + 1]) == Run(next, ts[1..][..k]) {
      assert ts[..k + 1] == [ts[0]] + ts[1..][..k];
      RunCons(c, ts[0], ts[1..][..k]);
    }
    if HeightsFit(limits, c, ts) {
      assert HeightFits(limits, Run(c, ts[..1]));
      forall k | 0 < k <= |ts[1..]| ensures HeightFits(limits, Run(next, ts[1..][..k])) {
        assert HeightFits(limits, Run(c, ts[..k + 1]));
      }
    }
    if HeightFits(limits, Step(c, ts[0])) && HeightsFit(limits, next, ts[1..]) {
      forall k | 0 < k <= |ts| ensures HeightFits(limits, Run(c, ts[..k])) {
        assert k > 1 ==> HeightFits(limits, Run(next, ts[1..][..k - 1]));
      }
    }
  }

  lemma SingleOver(limits: Limits, e: Expr)
    ensures OverTrees(limits, [e]) <==> Size(e) > limits.nodes || Depth(e) > limits.depth
  {
    hide Size, Depth, TotalSize;
    SnocSize([], e);
    assert [] + [e] == [e] && [e][0] == e;
    NoSize();
  }

  lemma NoSize()
    ensures TotalSize([]) == 0
  {
  }

  /** What becomes of tokens that finish as `e`: its tree if everything fits, otherwise a limit. */
  lemma {:induction false} FinishedVerdict(c: Config, ts: seq<Token>, limits: Limits, e: Expr)
    requires c.levels != [] && Run(c, ts).Some? && Finish(Run(c, ts).value) == Some(e)
    ensures Verdict(c, ts, limits)
              == if Size(e) <= limits.nodes && Depth(e) <= limits.depth && HeightsFit(limits, c, ts)
                 then Ok(e) else Err(Limit)
    decreases |ts|
  {
    hide UnderOr, Grows, ConfigTrees, Step, OverTrees, Size, Depth, Collapsed, HeightsFit, LevelsOps;
    SingleOver(limits, e);
    if ts == [] {
      OneLevel(c);
      NoHeights(limits, c);
    } else {
      StillLevels(c, ts[0]);
      var next := Step(c, ts[0]).value;
      HeightsCons(limits, c, ts);
      FinishedVerdict(next, ts[1..], limits, e);
      RunGrows(next, ts[1..], e);
      if OverTrees(limits, ConfigTrees(next)) {
        OverGrows(limits, ConfigTrees(next), [e]);
      }
    }
  }

  lemma NoHeights(limits: Limits, c: Config)
    requires c.levels != []
    ensures HeightsFit(limits, c, [])
  {
  }

  /** A sentence fits: its tree in size and depth, and the machine's stack and nesting at every token. */
  ghost predicate Fits(limits: Limits, tokens: seq<Token>, e: Expr) {
    Size(e) <= limits.nodes && Depth(e) <= limits.depth && HeightsFit(limits, START, tokens)
  }

  /** A sentence is accepted exactly when it fits, and otherwise stops at a limit. */
  lemma SentenceVerdict(tokens: seq<Token>, limits: Limits, e: Expr)
    requires DerivesOr(tokens, e)
    ensures Verdict(START, tokens, limits) == if Fits(limits, tokens, e) then Ok(e) else Err(Limit)
  {
    hide DerivesOr, HeightsFit, Verdict;
    ParseIsGrammar(tokens, e);
    FinishedVerdict(START, tokens, limits, e);
  }
}
