/**
 The shunting-yard machine on values, and its agreement with the grammar.

 Between two open parentheses the machine holds at most one pending left operand of OR,
 one of AND, and a run of pending NOTs: one `Level`. A level remembers the tokens each
 operand came from, so that a state and the tokens read so far determine each other.
 */
module ParserMachine {
  import opened Outcomes
  import opened QueryTree

  /** A subtree together with the tokens it was read from. */
  datatype Part = Part(tree: Expr, tokens: seq<Token>)

  datatype Level = Level(orLeft: Option<Part>, andLeft: Option<Part>, nots: nat)

  const FRESH := Level(None, None, 0)

  /** Open levels from the outermost in, and the operand just read, if any. */
  datatype Config = Config(levels: seq<Level>, operand: Option<Part>)

  const START := Config([FRESH], None)

  function Nots(n: nat): seq<Token> {
    if n == 0 then [] else [NotOp] + Nots(n - 1)
  }

  function NotTree(n: nat, e: Expr): Expr {
    if n == 0 then e else Not(NotTree(n - 1, e))
  }

  // ----- collapsing the innermost level -----

  function UnderNots(level: Level, x: Part): Part {
    Part(NotTree(level.nots, x.tree), Nots(level.nots) + x.tokens)
  }

  function UnderAnd(level: Level, x: Part): Part {
    var f := UnderNots(level, x);
    if level.andLeft.None? then f
    else Part(And(level.andLeft.value.tree, f.tree), level.andLeft.value.tokens + [AndOp] + f.tokens)
  }

  function UnderOr(level: Level, x: Part): Part {
    var t := UnderAnd(level, x);
    if level.orLeft.None? then t
    else Part(Or(level.orLeft.value.tree, t.tree), level.orLeft.value.tokens + [OrOp] + t.tokens)
  }

  // ----- one token -----

  function Step(c: Config, token: Token): Option<Config>
    requires c.levels != []
  {
    var last := |c.levels| - 1;
    var level := c.levels[last];
    match token
    case Operand(leaf) =>
      if c.operand.Some? then None else Some(c.(operand := Some(Part(Lit(leaf), [token]))))
    case NotOp =>
      if c.operand.Some? then None else Some(c.(levels := c.levels[last := level.(nots := level.nots + 1)]))
    case Open =>
      if c.operand.Some? then None else Some(c.(levels := c.levels + [FRESH]))
    case AndOp =>
      if c.operand.None? then None
      else Some(Config(c.levels[last := Level(level.orLeft, Some(UnderAnd(level, c.operand.value)), 0)], None))
    case OrOp =>
      if c.operand.None? then None
      else Some(Config(c.levels[last := Level(Some(UnderOr(level, c.operand.value)), None, 0)], None))
    case Close =>
      if c.operand.None? || last == 0 then None
      else
        var e := UnderOr(level, c.operand.value);
        Some(Config(c.levels[..last], Some(Part(e.tree, [Open] + e.tokens + [Close]))))
  }

  function Run(c: Config, ts: seq<Token>): Option<Config>
    requires c.levels != []
    decreases |ts|
  {
    if ts == [] then Some(c)
    else
      var next := Step(c, ts[0]);
      if next.None? then None else Run(next.value, ts[1..])
  }

  /** The tree of a complete input: one level and an operand. */
  function Finish(c: Config): Option<Expr> {
    if |c.levels| == 1 && c.operand.Some? then Some(UnderOr(c.levels[0], c.operand.value).tree) else None
  }

  function Parse(ts: seq<Token>): Option<Expr> {
    var c := Run(START, ts);
    if c.None? then None else Finish(c.value)
  }

  lemma {:induction false} RunAppend(c: Config, a: seq<Token>, b: seq<Token>)
    requires c.levels != []
    ensures Run(c, a).Some? ==> Run(c, a).value.levels != []
    ensures Run(c, a + b) == if Run(c, a).None? then None else Run(Run(c, a).value, b)
    decreases |a|
  {
    if a == [] {
      assert a + b == b;
    } else {
      var next := Step(c, a[0]);
      assert (a + b)[1..] == a[1..] + b;
      if next.Some? {
        RunAppend(next.value, a[1..], b);
      }
    }
  }

  lemma RunOne(c: Config, token: Token)
    requires c.levels != []
    ensures Run(c, [token]) == Step(c, token)
  {
    if Step(c, token).Some? {
      assert [token][1..] == [];
    }
  }

  // ----- whatever the machine accepts, the grammar derives -----

  ghost predicate LevelOk(level: Level) {
    && (level.orLeft.Some? ==> DerivesOr(level.orLeft.value.tokens, level.orLeft.value.tree))
    && (level.andLeft.Some? ==> DerivesAnd(level.andLeft.value.tokens, level.andLeft.value.tree))
  }

  function LevelTokens(level: Level): seq<Token> {
    (if level.orLeft.Some? then level.orLeft.value.tokens + [OrOp] else [])
    + (if level.andLeft.Some? then level.andLeft.value.tokens + [AndOp] else [])
    + Nots(level.nots)
  }

  /** The tokens a list of levels was read from, with an open parenthesis between two levels. */
  function LevelsTokens(levels: seq<Level>): seq<Token>
    requires levels != []
    decreases |levels|
  {
    if |levels| == 1 then LevelTokens(levels[0])
    else LevelsTokens(levels[..|levels| - 1]) + [Open] + LevelTokens(levels[|levels| - 1])
  }

  function ConfigTokens(c: Config): seq<Token>
    requires c.levels != []
  {
    LevelsTokens(c.levels) + if c.operand.Some? then c.operand.value.tokens else []
  }

  ghost predicate ConfigOk(c: Config) {
    && c.levels != []
    && (forall i | 0 <= i < |c.levels| :: LevelOk(c.levels[i]))
    && (c.operand.Some? ==> DerivesNot(c.operand.value.tokens, c.operand.value.tree))
  }

  lemma NotDerives(ts: seq<Token>, e: Expr)
    requires DerivesNot(ts, e)
    ensures DerivesNot([NotOp] + ts, Not(e))
  {
    assert ([NotOp] + ts)[1..] == ts;
  }

  lemma {:induction false} NotsDerive(n: nat, x: Part)
    requires DerivesNot(x.tokens, x.tree)
    ensures DerivesNot(Nots(n) + x.tokens, NotTree(n, x.tree))
    decreases n
  {
    hide DerivesNot;
    if n == 0 {
      assert Nots(0) + x.tokens == x.tokens;
    } else {
      NotsDerive(n - 1, x);
      NotDerives(Nots(n - 1) + x.tokens, NotTree(n - 1, x.tree));
      assert Nots(n) + x.tokens == [NotOp] + (Nots(n - 1) + x.tokens);
    }
  }

  lemma UnderAndDerives(level: Level, x: Part)
    requires LevelOk(level) && DerivesNot(x.tokens, x.tree)
    ensures DerivesAnd(UnderAnd(level, x).tokens, UnderAnd(level, x).tree)
  {
    NotsDerive(level.nots, x);
    if level.andLeft.Some? {
      var l := level.andLeft.value;
      var f := UnderNots(level, x);
      var ts := l.tokens + [AndOp] + f.tokens;
      var k := |l.tokens|;
      assert ts[..k] == l.tokens && ts[k + 1..] == f.tokens && ts[k] == AndOp;
    }
  }

  lemma UnderOrDerives(level: Level, x: Part)
    requires LevelOk(level) && DerivesNot(x.tokens, x.tree)
    ensures DerivesOr(UnderOr(level, x).tokens, UnderOr(level, x).tree)
  {
    UnderAndDerives(level, x);
    if level.orLeft.Some? {
      var l := level.orLeft.value;
      var t := UnderAnd(level, x);
      var ts := l.tokens + [OrOp] + t.tokens;
      var k := |l.tokens|;
      assert ts[..k] == l.tokens && ts[k + 1..] == t.tokens && ts[k] == OrOp;
    }
  }

  lemma UnderOrTokens(level: Level, x: Part)
    ensures UnderOr(level, x).tokens == LevelTokens(level) + x.tokens
    ensures UnderAnd(level, x).tokens == LevelTokens(level.(orLeft := None)) + x.tokens
  {
  }

  lemma LastLevel(levels: seq<Level>, level: Level)
    requires levels != []
    ensures LevelsTokens(levels[|levels| - 1 := level])
              == (if |levels| == 1 then [] else LevelsTokens(levels[..|levels| - 1]) + [Open]) + LevelTokens(level)
  {
    assert levels[|levels| - 1 := level][..|levels| - 1] == levels[..|levels| - 1];
  }

  lemma {:induction false} NotsSnoc(n: nat)
    ensures Nots(n + 1) == Nots(n) + [NotOp]
  {
    if n > 0 {
      NotsSnoc(n - 1);
    }
  }

  lemma LastUnchanged(levels: seq<Level>)
    requires levels != []
    ensures LevelsTokens(levels)
              == (if |levels| == 1 then []
                  else LevelsTokens(levels[..|levels| - 1]) + [Open]) + LevelTokens(levels[|levels| - 1])
  {
  }

  lemma DeeperTokens(levels: seq<Level>)
    requires levels != []
    ensures LevelsTokens(levels + [FRESH]) == LevelsTokens(levels) + [Open]
  {
    assert (levels + [FRESH])[..|levels|] == levels;
  }

  lemma MoreNots(level: Level)
    ensures LevelTokens(level.(nots := level.nots + 1)) == LevelTokens(level) + [NotOp]
  {
    NotsSnoc(level.nots);
  }

  /** A step appends its token to what the state stands for. */
  lemma StepTokens(c: Config, token: Token)
    requires c.levels != [] && Step(c, token).Some?
    ensures Step(c, token).value.levels != []
    ensures ConfigTokens(Step(c, token).value) == ConfigTokens(c) + [token]
  {
    hide LevelTokens, LevelsTokens, UnderOr, UnderAnd;
    var last := |c.levels| - 1;
    var level := c.levels[last];
    LastUnchanged(c.levels);
    match token
    case Operand(leaf) =>
    case NotOp =>
      LastLevel(c.levels, level.(nots := level.nots + 1));
      MoreNots(level);
    case Open =>
      DeeperTokens(c.levels);
    case AndOp =>
      var x := c.operand.value;
      AfterAnd(level, x);
      LastLevel(c.levels, Level(level.orLeft, Some(UnderAnd(level, x)), 0));
    case OrOp =>
      var x := c.operand.value;
      AfterOr(level, x);
      LastLevel(c.levels, Level(Some(UnderOr(level, x)), None, 0));
    case Close =>
      UnderOrTokens(level, c.operand.value);
  }

  lemma AfterAnd(level: Level, x: Part)
    ensures LevelTokens(Level(level.orLeft, Some(UnderAnd(level, x)), 0)) == LevelTokens(level) + x.tokens + [AndOp]
  {
  }

  lemma AfterOr(level: Level, x: Part)
    ensures LevelTokens(Level(Some(UnderOr(level, x)), None, 0)) == LevelTokens(level) + x.tokens + [OrOp]
  {
    UnderOrTokens(level, x);
  }

  /** A step keeps every remembered part derivable. */
  lemma StepIsSound(c: Config, token: Token)
    requires ConfigOk(c) && Step(c, token).Some?
    ensures ConfigOk(Step(c, token).value)
  {
    hide DerivesOr, DerivesAnd, DerivesNot, UnderOr, UnderAnd;
    var level := c.levels[|c.levels| - 1];
    assert LevelOk(level);
    match token
    case Operand(leaf) =>
      OperandDerives(leaf);
    case NotOp =>
    case Open =>
    case AndOp =>
      UnderAndDerives(level, c.operand.value);
    case OrOp =>
      UnderOrDerives(level, c.operand.value);
    case Close =>
      UnderOrDerives(level, c.operand.value);
      ParenthesesDerive(UnderOr(level, c.operand.value));
  }

  lemma OperandDerives(leaf: Leaf)
    ensures DerivesNot([Operand(leaf)], Lit(leaf))
  {
  }

  lemma ParenthesesDerive(x: Part)
    requires DerivesOr(x.tokens, x.tree)
    ensures DerivesNot([Open] + x.tokens + [Close], x.tree)
  {
    var ts := [Open] + x.tokens + [Close];
    assert ts[1..|ts| - 1] == x.tokens;
    NonemptyOr(x.tokens, x.tree);
  }

  lemma NonemptyOr(ts: seq<Token>, e: Expr)
    requires DerivesOr(ts, e)
    ensures ts != []
  {
    if DerivesAnd(ts, e) {
      assert DerivesNot(ts, e) || |ts| > 0;
    }
  }

  lemma {:induction false} RunIsSound(c: Config, ts: seq<Token>)
    requires ConfigOk(c) && Run(c, ts).Some?
    ensures ConfigOk(Run(c, ts).value)
    ensures ConfigTokens(Run(c, ts).value) == ConfigTokens(c) + ts
    decreases |ts|
  {
    if ts == [] {
      assert ConfigTokens(c) + ts == ConfigTokens(c);
    } else {
      hide ConfigTokens, Step;
      StepIsSound(c, ts[0]);
      StepTokens(c, ts[0]);
      RunIsSound(Step(c, ts[0]).value, ts[1..]);
      assert ts == [ts[0]] + ts[1..];
    }
  }

  lemma ParseIsSound(ts: seq<Token>)
    requires Parse(ts).Some?
    ensures DerivesOr(ts, Parse(ts).value)
  {
    RunIsSound(START, ts);
    var c := Run(START, ts).value;
    UnderOrDerives(c.levels[0], c.operand.value);
    UnderOrTokens(c.levels[0], c.operand.value);
    assert ConfigTokens(START) == [];
    assert ConfigTokens(c) == ts;
  }

  // ----- whatever the grammar derives, the machine accepts, with the same tree -----

  function Innermost(c: Config): Level
    requires c.levels != []
  {
    c.levels[|c.levels| - 1]
  }

  function WithInnermost(c: Config, level: Level, operand: Option<Part>): Config
    requires c.levels != []
  {
    Config(c.levels[|c.levels| - 1 := level], operand)
  }

  lemma RunCons(c: Config, token: Token, ts: seq<Token>)
    requires c.levels != []
    ensures Run(c, [token] + ts) == if Step(c, token).None? then None else Run(Step(c, token).value, ts)
  {
    assert ([token] + ts)[1..] == ts;
  }

  lemma ReplacedTwice(c: Config, a: Level, x: Option<Part>, b: Level, y: Option<Part>)
    requires c.levels != []
    ensures WithInnermost(WithInnermost(c, a, x), b, y) == WithInnermost(c, b, y)
    ensures Innermost(WithInnermost(c, a, x)) == a
  {
  }

  lemma StepOperator(c: Config, left: Level, y: Part)
    requires c.levels != []
    ensures Step(WithInnermost(c, left, None), NotOp) == Some(WithInnermost(c, left.(nots := left.nots + 1), None))
    ensures Step(WithInnermost(c, left, Some(y)), AndOp)
              == Some(WithInnermost(c, Level(left.orLeft, Some(UnderAnd(left, y)), 0), None))
    ensures Step(WithInnermost(c, left, Some(y)), OrOp)
              == Some(WithInnermost(c, Level(Some(UnderOr(left, y)), None, 0), None))
  {
    ReplacedTwice(c, left, None, left.(nots := left.nots + 1), None);
    ReplacedTwice(c, left, Some(y), Level(left.orLeft, Some(UnderAnd(left, y)), 0), None);
    ReplacedTwice(c, left, Some(y), Level(Some(UnderOr(left, y)), None, 0), None);
  }

  lemma SameInnermost(c: Config)
    requires c.levels != [] && c.operand.None?
    ensures WithInnermost(c, Innermost(c), None) == c
  {
  }

  /** Reading `a`, then an operator, then `b`. */
  lemma RunAround(c: Config, a: seq<Token>, op: Token, b: seq<Token>, c1: Config, c2: Config)
    requires c.levels != [] && Run(c, a) == Some(c1) && c1.levels != [] && Step(c1, op) == Some(c2) && c2.levels != []
    ensures Run(c, a + [op] + b) == Run(c2, b)
  {
    RunAppend(c, a, [op] + b);
    RunCons(c1, op, b);
    assert a + [op] + b == a + ([op] + b);
  }

  lemma SplitNot(ts: seq<Token>, e: Expr)
    requires DerivesNot(ts, e)
    ensures || (exists leaf :: ts == [Operand(leaf)] && e == Lit(leaf))
            || (exists rest :: ts == [NotOp] + rest && e.Not? && DerivesNot(rest, e.inner))
            || (exists inner :: ts == [Open] + inner + [Close] && DerivesOr(inner, e))
  {
    if |ts| == 1 && ts[0].Operand? && e == Lit(ts[0].leaf) {
      assert ts == [Operand(ts[0].leaf)];
    } else if ts[0] == NotOp && e.Not? && DerivesNot(ts[1..], e.inner) {
      assert ts == [NotOp] + ts[1..];
    } else {
      assert ts == [Open] + ts[1..|ts| - 1] + [Close];
    }
  }

  lemma SplitAnd(ts: seq<Token>, e: Expr) returns (a: seq<Token>, b: seq<Token>)
    requires DerivesAnd(ts, e) && !DerivesNot(ts, e)
    ensures ts == a + [AndOp] + b && e.And? && DerivesAnd(a, e.left) && DerivesNot(b, e.right)
  {
    var k :| 0 <= k < |ts| && ts[k] == AndOp && DerivesAnd(ts[..k], e.left) && DerivesNot(ts[k + 1..], e.right);
    a, b := ts[..k], ts[k + 1..];
  }

  lemma SplitOr(ts: seq<Token>, e: Expr) returns (a: seq<Token>, b: seq<Token>)
    requires DerivesOr(ts, e) && !DerivesAnd(ts, e)
    ensures ts == a + [OrOp] + b && e.Or? && DerivesOr(a, e.left) && DerivesAnd(b, e.right)
  {
    var k :| 0 <= k < |ts| && ts[k] == OrOp && DerivesOr(ts[..k], e.left) && DerivesAnd(ts[k + 1..], e.right);
    a, b := ts[..k], ts[k + 1..];
  }

  lemma RunParentheses(c: Config, inner: seq<Token>, e: Expr, level: Level, y: Part)
    requires c.levels != [] && c.operand.None?
    requires Run(c.(levels := c.levels + [FRESH]), inner) == Some(Config(c.levels + [level], Some(y)))
    requires UnderOr(level, y) == Part(e, inner)
    ensures Run(c, [Open] + inner + [Close]) == Some(Config(c.levels, Some(Part(e, [Open] + inner + [Close]))))
  {
    hide UnderOr, Run;
    var c1 := c.(levels := c.levels + [FRESH]);
    var c2 := Config(c.levels + [level], Some(y));
    assert [Open] + inner + [Close] == [Open] + (inner + [Close]);
    RunCons(c, Open, inner + [Close]);
    RunAppend(c1, inner, [Close]);
    RunOne(c2, Close);
    assert c2.levels[..|c.levels|] == c.levels;
  }

  /** An operand phrase leaves its NOTs pending below the operand. */
  lemma {:induction false} RunNot(c: Config, ts: seq<Token>, e: Expr) returns (n: nat, x: Part)
    requires c.levels != [] && c.operand.None? && DerivesNot(ts, e)
    ensures Run(c, ts) == Some(WithInnermost(c, Innermost(c).(nots := Innermost(c).nots + n), Some(x)))
    ensures NotTree(n, x.tree) == e && Nots(n) + x.tokens == ts
    decreases |ts|, 0
  {
    hide DerivesNot, DerivesOr, Run, UnderOr, UnderAnd;
    SplitNot(ts, e);
    var level := Innermost(c);
    assert c.levels[|c.levels| - 1 := level] == c.levels;
    if leaf :| ts == [Operand(leaf)] && e == Lit(leaf) {
      n, x := 0, Part(e, ts);
      RunOne(c, ts[0]);
    } else if rest :| ts == [NotOp] + rest && e.Not? && DerivesNot(rest, e.inner) {
      SameInnermost(c);
      StepOperator(c, level, Part(e, ts));
      RunCons(c, NotOp, rest);
      var c1 := WithInnermost(c, level.(nots := level.nots + 1), None);
      n, x := RunNot(c1, rest, e.inner);
      ReplacedTwice(c, level.(nots := level.nots + 1), None, level.(nots := level.nots + 1 + n), Some(x));
      n := n + 1;
    } else {
      var inner :| ts == [Open] + inner + [Close] && DerivesOr(inner, e);
      var c1 := c.(levels := c.levels + [FRESH]);
      var deep, y := RunOr(c1, inner, e);
      assert WithInnermost(c1, deep, Some(y)) == Config(c.levels + [deep], Some(y));
      RunParentheses(c, inner, e, deep, y);
      n, x := 0, Part(e, ts);
    }
  }

  lemma UnderOneAnd(level: Level, n: nat, x: Part)
    requires level.nots == n
    ensures UnderAnd(level, x)
              == if level.andLeft.None? then Part(NotTree(n, x.tree), Nots(n) + x.tokens)
                 else Part(And(level.andLeft.value.tree, NotTree(n, x.tree)),
                     level.andLeft.value.tokens + [AndOp] + (Nots(n) + x.tokens))
  {
  }

  lemma {:induction false} RunAnd(c: Config, ts: seq<Token>, e: Expr) returns (level: Level, x: Part)
    requires c.levels != [] && c.operand.None? && DerivesAnd(ts, e)
    requires Innermost(c).andLeft.None? && Innermost(c).nots == 0
    ensures Run(c, ts) == Some(WithInnermost(c, level, Some(x)))
    ensures level.orLeft == Innermost(c).orLeft && UnderAnd(level, x) == Part(e, ts)
    decreases |ts|, 1
  {
    hide DerivesNot, DerivesAnd, Run, Step, UnderAnd, UnderOr;
    if DerivesNot(ts, e) {
      var n;
      n, x := RunNot(c, ts, e);
      level := Innermost(c).(nots := n);
      UnderOneAnd(level, n, x);
    } else {
      var a, b := SplitAnd(ts, e);
      var left, y := RunAnd(c, a, e.left);
      var l2 := Level(left.orLeft, Some(UnderAnd(left, y)), 0);
      var c2 := WithInnermost(c, l2, None);
      StepOperator(c, left, y);
      RunAround(c, a, AndOp, b, WithInnermost(c, left, Some(y)), c2);
      var n;
      n, x := RunNot(c2, b, e.right);
      level := l2.(nots := n);
      ReplacedTwice(c, l2, None, level, Some(x));
      UnderOneAnd(level, n, x);
    }
  }

  lemma UnderOneOr(level: Level, x: Part)
    ensures UnderOr(level, x)
              == if level.orLeft.None? then UnderAnd(level, x)
                 else Part(Or(level.orLeft.value.tree, UnderAnd(level, x).tree),
                     level.orLeft.value.tokens + [OrOp] + UnderAnd(level, x).tokens)
  {
  }

  lemma {:induction false} RunOr(c: Config, ts: seq<Token>, e: Expr) returns (level: Level, x: Part)
    requires c.levels != [] && c.operand.None? && DerivesOr(ts, e)
    requires Innermost(c) == FRESH
    ensures Run(c, ts) == Some(WithInnermost(c, level, Some(x)))
    ensures UnderOr(level, x) == Part(e, ts)
    decreases |ts|, 2
  {
    hide DerivesAnd, DerivesOr, Run, Step, UnderAnd, UnderOr;
    if DerivesAnd(ts, e) {
      level, x := RunAnd(c, ts, e);
      UnderOneOr(level, x);
    } else {
      var a, b := SplitOr(ts, e);
      var left, y := RunOr(c, a, e.left);
      var l2 := Level(Some(UnderOr(left, y)), None, 0);
      var c2 := WithInnermost(c, l2, None);
      StepOperator(c, left, y);
      RunAround(c, a, OrOp, b, WithInnermost(c, left, Some(y)), c2);
      level, x := RunAnd(c2, b, e.right);
      ReplacedTwice(c, l2, None, level, Some(x));
      UnderOneOr(level, x);
    }
  }

  /** The machine accepts exactly the sentences of the grammar and builds their trees. */
  lemma ParseIsGrammar(ts: seq<Token>, e: Expr)
    ensures Parse(ts) == Some(e) <==> DerivesOr(ts, e)
  {
    if Parse(ts) == Some(e) {
      ParseIsSound(ts);
    }
    if DerivesOr(ts, e) {
      var level, x := RunOr(START, ts, e);
    }
  }

  /** The grammar is unambiguous. */
  lemma GrammarIsUnambiguous(ts: seq<Token>, a: Expr, b: Expr)
    requires DerivesOr(ts, a) && DerivesOr(ts, b)
    ensures a == b
  {
    ParseIsGrammar(ts, a);
    ParseIsGrammar(ts, b);
  }
}
