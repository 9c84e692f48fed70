/** How the parser's value stack, operator stack and node array stand for a machine state. */
module ParserStacks {
  import opened Outcomes
  import opened QueryTree
  import opened ParserMachine

  datatype Op = OpenParen | NotSign | AndSign | OrSign

  function Precedence(op: Op): nat {
    match op
    case OpenParen => 0
    case OrSign => 1
    case AndSign => 2
    case NotSign => 3
  }

  // ----- the two stacks of a machine state -----

  function NotSigns(n: nat): (s: seq<Op>)
    ensures |s| == n
    ensures n > 0 ==> s[n - 1] == NotSign && s[..n - 1] == NotSigns(n - 1)
  {
    if n == 0 then [] else NotSigns(n - 1) + [NotSign]
  }

  function LevelOps(level: Level): seq<Op> {
    (if level.orLeft.Some? then [OrSign] else [])
    + (if level.andLeft.Some? then [AndSign] else [])
    + NotSigns(level.nots)
  }

  function LevelsOps(levels: seq<Level>): seq<Op>
    requires levels != []
    decreases |levels|
  {
    if |levels| == 1 then LevelOps(levels[0])
    else LevelsOps(levels[..|levels| - 1]) + [OpenParen] + LevelOps(levels[|levels| - 1])
  }

  /** Everything below the innermost level's own operators. */
  function OuterOps(levels: seq<Level>): seq<Op>
    requires levels != []
  {
    if |levels| == 1 then [] else LevelsOps(levels[..|levels| - 1]) + [OpenParen]
  }

  function LevelTrees(level: Level): seq<Expr> {
    (if level.orLeft.Some? then [level.orLeft.value.tree] else [])
    + (if level.andLeft.Some? then [level.andLeft.value.tree] else [])
  }

  function LevelsTrees(levels: seq<Level>): seq<Expr>
    decreases |levels|
  {
    if levels == [] then [] else LevelsTrees(levels[..|levels| - 1]) + LevelTrees(levels[|levels| - 1])
  }

  function OperandTree(operand: Option<Part>): seq<Expr> {
    if operand.Some? then [operand.value.tree] else []
  }

  function ConfigTrees(c: Config): seq<Expr> {
    LevelsTrees(c.levels) + OperandTree(c.operand)
  }

  lemma OpsOf(levels: seq<Level>)
    requires levels != []
    ensures LevelsOps(levels) == OuterOps(levels) + LevelOps(levels[|levels| - 1])
  {
    hide LevelOps;
    if |levels| == 1 {
      assert OuterOps(levels) == [];
    } else {
      assert OuterOps(levels) == LevelsOps(levels[..|levels| - 1]) + [OpenParen];
    }
  }

  lemma ReplacedStacks(c: Config, level: Level, operand: Option<Part>)
    requires c.levels != []
    ensures LevelsOps(WithInnermost(c, level, operand).levels) == OuterOps(c.levels) + LevelOps(level)
    ensures ConfigTrees(WithInnermost(c, level, operand))
              == LevelsTrees(c.levels[..|c.levels| - 1]) + LevelTrees(level) + OperandTree(operand)
    ensures OuterOps(WithInnermost(c, level, operand).levels) == OuterOps(c.levels)
  {
    hide LevelOps, LevelTrees;
    var c1 := WithInnermost(c, level, operand);
    assert c1.levels[..|c.levels| - 1] == c.levels[..|c.levels| - 1];
    OpsOf(c1.levels);
  }

  // ----- one reduction -----

  /** What applying an operator does to the trees on the value stack. */
  function Reduced(trees: seq<Expr>, op: Op): Option<seq<Expr>> {
    var n := |trees|;
    match op
    case OpenParen => None
    case NotSign => if n < 1 then None else Some(trees[..n - 1] + [Not(trees[n - 1])])
    case AndSign => if n < 2 then None else Some(trees[..n - 2] + [And(trees[n - 2], trees[n - 1])])
    case OrSign => if n < 2 then None else Some(trees[..n - 2] + [Or(trees[n - 2], trees[n - 1])])
  }

  /** The innermost level after its top operator is applied to the operand. */
  function ReduceLevel(level: Level, x: Part): (Level, Part)
    requires LevelOps(level) != []
  {
    if level.nots > 0 then
      (level.(nots := level.nots - 1), Part(Not(x.tree), [NotOp] + x.tokens))
    else if level.andLeft.Some? then
      var l := level.andLeft.value;
      (level.(andLeft := None), Part(And(l.tree, x.tree), l.tokens + [AndOp] + x.tokens))
    else
      var l := level.orLeft.value;
      (level.(orLeft := None), Part(Or(l.tree, x.tree), l.tokens + [OrOp] + x.tokens))
  }

  lemma {:induction false} NotsCommute(n: nat, e: Expr)
    ensures NotTree(n, Not(e)) == Not(NotTree(n, e))
  {
    if n > 0 {
      NotsCommute(n - 1, e);
    }
  }

  /** Reducing early or late gives the same subtree. */
  lemma ReduceKeepsMeaning(level: Level, x: Part)
    requires LevelOps(level) != []
    ensures var (l, y) := ReduceLevel(level, x); UnderOr(l, y) == UnderOr(level, x)
    ensures var (l, y) := ReduceLevel(level, x);
            level.nots > 0 || level.andLeft.Some? ==> UnderAnd(l, y) == UnderAnd(level, x) && l.orLeft == level.orLeft
  {
    if level.nots > 0 {
      ReduceKeepsNots(level, x);
    } else {
      assert Nots(0) + x.tokens == x.tokens;
    }
  }

  lemma ReduceKeepsNots(level: Level, x: Part)
    requires level.nots > 0
    ensures UnderNots(level.(nots := level.nots - 1), Part(Not(x.tree), [NotOp] + x.tokens)) == UnderNots(level, x)
  {
    NotsCommute(level.nots - 1, x.tree);
    NotsSnoc(level.nots - 1);
    assert Nots(level.nots) + x.tokens == Nots(level.nots - 1) + ([NotOp] + x.tokens);
  }

  /** The reduction pops one operator and combines the top of the value stack. */
  lemma ReduceOnStacks(level: Level, x: Part, below: seq<Expr>)
    requires LevelOps(level) != []
    ensures var (l, y) := ReduceLevel(level, x);
            && var ops := LevelOps(level);
            && ops[|ops| - 1] != OpenParen && LevelOps(l) == ops[..|ops| - 1]
            && Reduced(below + LevelTrees(level) + [x.tree], ops[|ops| - 1]) == Some(below + LevelTrees(l) + [y.tree])
    ensures var ops := LevelOps(level);
            && (ops[|ops| - 1] == NotSign <==> level.nots > 0)
            && (ops[|ops| - 1] == OrSign <==> level.nots == 0 && level.andLeft.None?)
  {
    var (l, y) := ReduceLevel(level, x);
    var trees := below + LevelTrees(level) + [x.tree];
    var n := |trees|;
    assert trees[n - 1] == x.tree && trees[..n - 1] == below + LevelTrees(level);
    if level.nots == 0 && level.andLeft.Some? {
      assert trees[n - 2] == level.andLeft.value.tree && trees[..n - 2] == below + LevelTrees(l);
    } else if level.nots == 0 {
      assert trees[n - 2] == level.orLeft.value.tree && trees[..n - 2] == below + LevelTrees(l);
    }
  }

  // ----- the node array -----

  function TotalSize(trees: seq<Expr>): nat {
    if trees == [] then 0 else TotalSize(trees[..|trees| - 1]) + Size(trees[|trees| - 1])
  }

  /** The trees of the value stack, flattened one after another. */
  function FlattenAll(trees: seq<Expr>): (nodes: seq<Node>)
    ensures |nodes| == TotalSize(trees)
  {
    if trees == [] then []
    else FlattenAll(trees[..|trees| - 1]) + Flatten(trees[|trees| - 1], TotalSize(trees[..|trees| - 1]))
  }

  function Roots(trees: seq<Expr>): (values: seq<nat>)
    ensures |values| == |trees| <= TotalSize(trees)
    ensures forall k | 0 <= k < |values| :: values[k] < TotalSize(trees)
  {
    if trees == [] then [] else Roots(trees[..|trees| - 1]) + [TotalSize(trees) - 1]
  }

  lemma SnocSize(trees: seq<Expr>, t: Expr)
    ensures TotalSize(trees + [t]) == TotalSize(trees) + Size(t)
  {
    hide Size;
    assert (trees + [t])[..|trees|] == trees && (trees + [t])[|trees|] == t;
  }

  lemma SnocNodes(trees: seq<Expr>, t: Expr)
    ensures FlattenAll(trees + [t]) == FlattenAll(trees) + Flatten(t, TotalSize(trees))
  {
    hide Size, Flatten, TotalSize;
    assert (trees + [t])[..|trees|] == trees && (trees + [t])[|trees|] == t;
  }

  lemma SnocRoots(trees: seq<Expr>, t: Expr)
    ensures Roots(trees + [t]) == Roots(trees) + [TotalSize(trees) + Size(t) - 1]
  {
    hide Size, TotalSize;
    SnocSize(trees, t);
    assert (trees + [t])[..|trees|] == trees;
  }

  lemma Snoc(trees: seq<Expr>, t: Expr)
    ensures TotalSize(trees + [t]) == TotalSize(trees) + Size(t)
    ensures FlattenAll(trees + [t]) == FlattenAll(trees) + Flatten(t, TotalSize(trees))
    ensures Roots(trees + [t]) == Roots(trees) + [TotalSize(trees) + Size(t) - 1]
  {
    hide Size, Flatten, TotalSize, FlattenAll, Roots;
    SnocSize(trees, t);
    SnocNodes(trees, t);
    SnocRoots(trees, t);
  }

  /** The parser's arrays stand for `trees`. */
  ghost predicate Laid(nodes: seq<Node>, depths: seq<nat>, values: seq<nat>, trees: seq<Expr>) {
    && nodes == FlattenAll(trees)
    && values == Roots(trees)
    && |depths| == |nodes|
    && (forall k | 0 <= k < |trees| :: depths[values[k]] == Depth(trees[k]))
  }

  function DepthOf(node: Node, depths: seq<nat>): nat
    requires forall c: nat | Refers(node, c) :: c < |depths|
  {
    match node
    case LitNode(_) => 1
    case NotNode(c) => assert Refers(node, c); depths[c] + 1
    case AndNode(l, r) => assert Refers(node, l) && Refers(node, r); Max(depths[l], depths[r]) + 1
    case OrNode(l, r) => assert Refers(node, l) && Refers(node, r); Max(depths[l], depths[r]) + 1
  }

  /** Pushing the node of an applied operator, or of a leaf, lays out the new tree. */
  lemma PushLaid(nodes: seq<Node>, depths: seq<nat>, values: seq<nat>, below: seq<Expr>, more: seq<Expr>, node: Node,
      t: Expr)
    requires FlattenAll(below + [t]) == nodes + [node] && Roots(below + more)[..|below|] == Roots(below)
    requires Laid(nodes, depths, values, below + more)
    ensures Laid(nodes + [node], depths + [Depth(t)], Roots(below) + [|nodes|], below + [t])
  {
    hide FlattenAll, Flatten, TotalSize, Roots, Size, Depth;
    Snoc(below, t);
    var after := below + [t];
    var d1, v1 := depths + [Depth(t)], Roots(below) + [|nodes|];
    assert Roots(after) == v1;
    forall k | 0 <= k < |after| ensures d1[v1[k]] == Depth(after[k]) {
      if k < |below| {
        assert v1[k] == values[k] && values[k] < |depths| && (below + more)[k] == below[k];
      }
    }
  }

  lemma RootsSnoc(trees: seq<Expr>, t: Expr)
    ensures Roots(trees + [t])[..|trees|] == Roots(trees)
  {
    assert (trees + [t])[..|trees|] == trees;
  }

  lemma Slices<T>(s: seq<T>, i: nat, j: nat)
    requires i <= j <= |s|
    ensures s[..j][..i] == s[..i]
  {
  }

  lemma RootsBelow(below: seq<Expr>, l: Expr, x: Expr)
    ensures Roots(below + [l])[..|below|] == Roots(below)
    ensures Roots(below + [l, x])[..|below|] == Roots(below)
  {
    hide TotalSize, Roots;
    RootsSnoc(below, l);
    RootsSnoc(below + [l], x);
    assert below + [l] + [x] == below + [l, x];
    Slices(Roots(below + [l, x]), |below|, |below| + 1);
  }

  lemma Regroup<T>(a: seq<T>, b: seq<T>, c: seq<T>)
    ensures a + (b + c) == (a + b) + c
  {
  }

  lemma FlattenNot(below: seq<Expr>, x: Expr)
    ensures FlattenAll(below + [Not(x)]) == FlattenAll(below + [x]) + [NotNode(TotalSize(below) + Size(x) - 1)]
  {
    hide FlattenAll, TotalSize, Flatten, Size, Roots;
    Snoc(below, x);
    Snoc(below, Not(x));
    FlatNot(x, TotalSize(below));
    Regroup(FlattenAll(below), Flatten(x, TotalSize(below)), [NotNode(TotalSize(below) + Size(x) - 1)]);
  }

  lemma FlattenAnd(below: seq<Expr>, l: Expr, r: Expr)
    ensures FlattenAll(below + [And(l, r)])
              == FlattenAll(below + [l] + [r])
                 + [AndNode(TotalSize(below) + Size(l) - 1, TotalSize(below) + Size(l) + Size(r) - 1)]
  {
    hide FlattenAll, TotalSize, Roots;
    Snoc(below, l);
    Snoc(below + [l], r);
    Snoc(below, And(l, r));
    var base := TotalSize(below);
    Regroup(Flatten(l, base), Flatten(r, base + Size(l)), [AndNode(base + Size(l) - 1, base + Size(l) + Size(r) - 1)]);
    Regroup(FlattenAll(below), Flatten(l, base), Flatten(r, base + Size(l)));
    Regroup(FlattenAll(below), Flatten(l, base) + Flatten(r, base + Size(l)),
        [AndNode(base + Size(l) - 1, base + Size(l) + Size(r) - 1)]);
  }

  lemma FlattenOr(below: seq<Expr>, l: Expr, r: Expr)
    ensures FlattenAll(below + [Or(l, r)])
              == FlattenAll(below + [l] + [r])
                 + [OrNode(TotalSize(below) + Size(l) - 1, TotalSize(below) + Size(l) + Size(r) - 1)]
  {
    hide FlattenAll, TotalSize, Roots;
    Snoc(below, l);
    Snoc(below + [l], r);
    Snoc(below, Or(l, r));
    var base := TotalSize(below);
    Regroup(Flatten(l, base), Flatten(r, base + Size(l)), [OrNode(base + Size(l) - 1, base + Size(l) + Size(r) - 1)]);
    Regroup(FlattenAll(below), Flatten(l, base), Flatten(r, base + Size(l)));
    Regroup(FlattenAll(below), Flatten(l, base) + Flatten(r, base + Size(l)),
        [OrNode(base + Size(l) - 1, base + Size(l) + Size(r) - 1)]);
  }

  // ----- machine states across reductions -----

  /** The state after one reduction. */
  function ReduceConfig(c: Config): Config
    requires c.levels != [] && c.operand.Some? && LevelOps(Innermost(c)) != []
  {
    var (l, y) := ReduceLevel(Innermost(c), c.operand.value);
    WithInnermost(c, l, Some(y))
  }

  /** `c` is `start` after some reductions. */
  ghost predicate ReducedFrom(start: Config, c: Config) {
    && start.levels != [] && start.operand.Some? && c.operand.Some?
    && |c.levels| == |start.levels| && c == WithInnermost(start, Innermost(c), c.operand)
    && UnderOr(Innermost(c), c.operand.value) == UnderOr(Innermost(start), start.operand.value)
  }

  /** Nothing above OR has been reduced away. */
  ghost predicate KeepsAnd(start: Config, c: Config) {
    && start.levels != [] && start.operand.Some? && c.levels != [] && c.operand.Some?
    && UnderAnd(Innermost(c), c.operand.value) == UnderAnd(Innermost(start), start.operand.value)
    && Innermost(c).orLeft == Innermost(start).orLeft
  }

  lemma ReduceConfigKeeps(start: Config, c: Config)
    requires ReducedFrom(start, c) && LevelOps(Innermost(c)) != []
    ensures ReducedFrom(start, ReduceConfig(c))
    ensures KeepsAnd(start, c) && (Innermost(c).nots > 0 || Innermost(c).andLeft.Some?) ==>
              KeepsAnd(start, ReduceConfig(c))
  {
    hide UnderOr, UnderAnd, ReduceLevel;
    var level, x := Innermost(c), c.operand.value;
    ReduceKeepsMeaning(level, x);
    var (l, y) := ReduceLevel(level, x);
    ReplacedTwice(start, level, Some(x), l, Some(y));
    ReplacedTwice(c, l, Some(y), l, Some(y));
  }

  lemma ReduceConfigStacks(c: Config)
    requires c.levels != [] && c.operand.Some? && LevelOps(Innermost(c)) != []
    ensures var ops := LevelsOps(c.levels);
            && ops != [] && LevelsOps(ReduceConfig(c).levels) == ops[..|ops| - 1]
            && Reduced(ConfigTrees(c), ops[|ops| - 1]) == Some(ConfigTrees(ReduceConfig(c)))
            && (ops[|ops| - 1] == NotSign || ops[|ops| - 1] == AndSign <==>
                 Innermost(c).nots > 0 || Innermost(c).andLeft.Some?)
            && ops[|ops| - 1] != OpenParen
  {
    hide LevelOps, LevelTrees, LevelsOps, LevelsTrees, ReduceLevel, OuterOps, Reduced;
    var level, x := Innermost(c), c.operand.value;
    var (l, y) := ReduceLevel(level, x);
    OpsOf(c.levels);
    ReplacedStacks(c, l, Some(y));
    ReplacedStacks(c, level, c.operand);
    assert WithInnermost(c, level, c.operand) == c by {
      assert c.levels[|c.levels| - 1 := level] == c.levels;
    }
    ReduceOnStacks(level, x, LevelsTrees(c.levels[..|c.levels| - 1]));
  }

  /** With no operator of its own left, a level stands for its operand. */
  lemma BareLevel(level: Level, x: Part)
    ensures LevelOps(level) == [] ==> level == FRESH && UnderOr(level, x) == x
    ensures level.nots == 0 && level.andLeft.None? ==> UnderAnd(level, x) == x
  {
    assert Nots(0) + x.tokens == x.tokens;
  }

  lemma TopOperator(levels: seq<Level>)
    requires levels != []
    ensures var ops := LevelsOps(levels);
            var level := levels[|levels| - 1];
            && (LevelOps(level) == [] && |levels| == 1 ==> ops == [])
            && (LevelOps(level) == [] && |levels| > 1 ==>
                  && ops != [] && ops[|ops| - 1] == OpenParen
                  && ops[..|ops| - 1] == LevelsOps(levels[..|levels| - 1]))
            && (LevelOps(level) != [] ==> ops != [] && ops[|ops| - 1] == LevelOps(level)[|LevelOps(level)| - 1])
  {
    OpsOf(levels);
  }

  lemma LevelTop(level: Level)
    requires LevelOps(level) != []
    ensures var top := LevelOps(level)[|LevelOps(level)| - 1];
            && top != OpenParen
            && (top == OrSign <==> level.nots == 0 && level.andLeft.None?)
  {
  }

  function TokenOf(op: Op): Token {
    match op
    case OpenParen => Open
    case NotSign => NotOp
    case AndSign => AndOp
    case OrSign => OrOp
  }

  lemma PushLevel(level: Level, x: Part)
    ensures level.nots == 0 && level.andLeft.None? ==>
              var next := Level(level.orLeft, Some(x), 0);
              LevelOps(next) == LevelOps(level) + [AndSign] && LevelTrees(next) == LevelTrees(level) + [x.tree]
    ensures level == FRESH ==>
              var next := Level(Some(x), None, 0);
              LevelOps(next) == LevelOps(level) + [OrSign] && LevelTrees(next) == LevelTrees(level) + [x.tree]
  {
  }

  /** After the reductions an operator calls for, pushing it gives the machine's next state. */
  lemma PushBinary(start: Config, c: Config, op: Op)
    requires ReducedFrom(start, c) && (op == AndSign || op == OrSign)
    requires op == AndSign ==> KeepsAnd(start, c)
    requires var ops := LevelsOps(c.levels); ops == [] || Precedence(ops[|ops| - 1]) < Precedence(op)
    ensures var next := Step(start, TokenOf(op));
            && next.Some? && next.value.levels != []
            && ConfigTrees(next.value) == ConfigTrees(c) && LevelsOps(next.value.levels) == LevelsOps(c.levels) + [op]
  {
    hide UnderOr, UnderAnd, LevelsOps, LevelsTrees, OuterOps, LevelOps, LevelTrees, Step, FlattenAll;
    var level, x := Innermost(c), c.operand.value;
    TopOperator(c.levels);
    if LevelOps(level) != [] {
      LevelTop(level);
    }
    BareLevel(level, x);
    var next := if op == AndSign then Level(level.orLeft, Some(x), 0) else Level(Some(x), None, 0);
    var s0, x0 := Innermost(start), start.operand.value;
    SameConfig(start);
    StepOperator(start, s0, x0);
    PushLevel(level, x);
    ReplacedStacks(start, level, Some(x));
    ReplacedStacks(start, next, None);
  }

  lemma SameConfig(c: Config)
    requires c.levels != []
    ensures WithInnermost(c, Innermost(c), c.operand) == c
  {
    assert c.levels[|c.levels| - 1 := Innermost(c)] == c.levels;
  }

  lemma PushPrefix(c: Config, op: Op)
    requires c.levels != [] && c.operand.None? && (op == NotSign || op == OpenParen)
    ensures var next := Step(c, TokenOf(op));
            && next.Some? && next.value.levels != []
            && ConfigTrees(next.value) == ConfigTrees(c) && LevelsOps(next.value.levels) == LevelsOps(c.levels) + [op]
  {
    var level := Innermost(c);
    if op == NotSign {
      hide LevelsOps, LevelsTrees, OuterOps;
      SameConfig(c);
      StepOperator(c, level, Part(Lit(Nothing), []));
      ReplacedStacks(c, level, None);
      ReplacedStacks(c, level.(nots := level.nots + 1), None);
    } else {
      assert (c.levels + [FRESH])[..|c.levels|] == c.levels;
    }
  }

  lemma PopClose(start: Config, c: Config)
    requires ReducedFrom(start, c) && LevelOps(Innermost(c)) == [] && |c.levels| > 1
    ensures var next := Step(start, Close);
            && next.Some? && next.value.levels != [] && LevelsOps(c.levels) != []
            && ConfigTrees(next.value) == ConfigTrees(c)
            && LevelsOps(next.value.levels) == LevelsOps(c.levels)[..|LevelsOps(c.levels)| - 1]
  {
    hide UnderOr, LevelsOps, LevelsTrees;
    var level, x := Innermost(c), c.operand.value;
    BareLevel(level, x);
    TopOperator(c.levels);
    ReplacedStacks(start, level, Some(x));
    assert c.levels[..|c.levels| - 1] == start.levels[..|start.levels| - 1];
  }
}
