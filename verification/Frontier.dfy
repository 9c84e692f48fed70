/** The lower-bound frontier loop: skips through sorted streams without missing a match. */
module Frontier {
  import opened Outcomes
  import opened Ordering

  datatype Expr = Term(name: string) | Not(inner: Expr) | And(left: Expr, right: Expr) | Or(left: Expr, right: Expr)

  /** Which documents each term occurs in. */
  type Postings = map<string, set<nat>>

  predicate Has(terms: Postings, name: string, x: nat) {
    name in terms && x in terms[name]
  }

  predicate Matches(e: Expr, terms: Postings, x: nat) {
    match e
    case Term(name) => Has(terms, name, x)
    case Not(c) => !Matches(c, terms, x)
    case And(l, r) => Matches(l, terms, x) && Matches(r, terms, x)
    case Or(l, r) => Matches(l, terms, x) || Matches(r, terms, x)
  }

  /** Whether a document could match when every NOT is read as true. */
  predicate Possible(e: Expr, terms: Postings, x: nat) {
    match e
    case Term(name) => Has(terms, name, x)
    case Not(_) => true
    case And(l, r) => Possible(l, terms, x) && Possible(r, terms, x)
    case Or(l, r) => Possible(l, terms, x) || Possible(r, terms, x)
  }

  predicate HasNot(e: Expr) {
    match e
    case Term(_) => false
    case Not(_) => true
    case And(l, r) => HasNot(l) || HasNot(r)
    case Or(l, r) => HasNot(l) || HasNot(r)
  }

  lemma {:induction false} MatchIsPossible(e: Expr, terms: Postings, x: nat)
    ensures Matches(e, terms, x) ==> Possible(e, terms, x)
    ensures !HasNot(e) ==> Matches(e, terms, x) == Possible(e, terms, x)
    decreases e
  {
    match e
    case Term(_) =>
    case Not(_) =>
    case And(l, r) => MatchIsPossible(l, terms, x); MatchIsPossible(r, terms, x);
    case Or(l, r) => MatchIsPossible(l, terms, x); MatchIsPossible(r, terms, x);
  }

  ghost predicate Rising(s: seq<nat>) {
    forall i, j | 0 <= i < j < |s| :: s[i] < s[j]
  }

  // ----- covers -----

  function Union(a: seq<string>, b: seq<string>): (r: seq<string>)
    ensures forall x :: x in r <==> x in a || x in b
    decreases |b|
  {
    if b == [] then a
    else
      var rest := Union(a, b[..|b| - 1]);
      var x := b[|b| - 1];
      assert b == b[..|b| - 1] + [x];
      if x in rest then rest else rest + [x]
  }

  /** The terms that bound a query from below; None when negation leaves it unbounded. */
  function Cover(e: Expr): Option<seq<string>> {
    match e
    case Term(name) => Some([name])
    case Not(_) => None
    case And(l, r) =>
      var a, b := Cover(l), Cover(r);
      if a.None? then b else if b.None? then a else Some(Union(a.value, b.value))
    case Or(l, r) =>
      var a, b := Cover(l), Cover(r);
      if a.None? || b.None? then None else Some(Union(a.value, b.value))
  }

  /** Without a cover the query rules no document out. */
  lemma {:induction false} UncoveredIsPossible(e: Expr, terms: Postings, x: nat)
    requires Cover(e).None?
    ensures Possible(e, terms, x)
    decreases e
  {
    match e
    case Not(_) =>
    case And(l, r) => UncoveredIsPossible(l, terms, x); UncoveredIsPossible(r, terms, x);
    case Or(l, r) => UncoveredIsPossible(if Cover(l).None? then l else r, terms, x);
  }

  // ----- streams -----

  /** One sorted stream per covered term, and how far each has been read. */
  datatype Streams = Streams(names: seq<string>, values: seq<seq<nat>>, positions: seq<nat>)

  ghost predicate StreamsOk(s: Streams, end: int) {
    && |s.names| == |s.values| == |s.positions|
    && (forall k | 0 <= k < |s.names| :: s.positions[k] <= |s.values[k]| && Rising(s.values[k]))
    && (forall k, i | 0 <= k < |s.names| && 0 <= i < |s.values[k]| :: s.values[k][i] < end)
  }

  /** A stream holds exactly the universe's documents with its term. */
  ghost predicate StreamsAre(s: Streams, terms: Postings, universe: seq<nat>) {
    && |s.names| == |s.values|
    && forall k | 0 <= k < |s.names| :: forall x: nat :: x in s.values[k] <==>
         x in universe && Has(terms, s.names[k], x)
  }

  function IndexOf(names: seq<string>, name: string): (k: nat)
    ensures k <= |names| && (k < |names| ==> names[k] == name) && (k == |names| ==> name !in names)
  {
    if names == [] then 0 else if names[0] == name then 0 else 1 + IndexOf(names[1..], name)
  }

  /** Where a stream stands: its next document, or the end. */
  function Next(s: Streams, k: nat, end: int): int
    requires |s.values| == |s.positions|
  {
    if k < |s.values| && s.positions[k] < |s.values[k]| then s.values[k][s.positions[k]] else end
  }

  function Bound(e: Expr, s: Streams, end: int): int
    requires |s.values| == |s.positions|
  {
    match e
    case Term(name) => Next(s, IndexOf(s.names, name), end)
    case Not(_) => -1
    case And(l, r) => Larger(Bound(l, s, end), Bound(r, s, end))
    case Or(l, r) => Smaller(Bound(l, s, end), Bound(r, s, end))
  }

  function Larger(a: int, b: int): int { if a < b then b else a }

  function Smaller(a: int, b: int): int { if a < b then a else b }

  ghost predicate Covered(e: Expr, s: Streams) {
    Cover(e).Some? && forall x | x in Cover(e).value :: x in s.names
  }

  /** Without a cover the bound is -1; every bound is at most the end. */
  lemma {:induction false} BoundRange(e: Expr, s: Streams, end: int)
    requires StreamsOk(s, end) && end >= 0
    ensures -1 <= Bound(e, s, end) <= end
    ensures Cover(e).None? ==> Bound(e, s, end) == -1
    decreases e
  {
    match e
    case Term(_) =>
    case Not(_) =>
    case And(l, r) => BoundRange(l, s, end); BoundRange(r, s, end);
    case Or(l, r) => BoundRange(l, s, end); BoundRange(r, s, end);
  }

  /** A covered bound is where some stream stands, or the end. */
  lemma {:induction false} BoundIsSomewhere(e: Expr, s: Streams, end: int)
    requires StreamsOk(s, end) && end >= 0 && Covered(e, s)
    ensures Bound(e, s, end) == end || exists k :: 0 <= k < |s.names| && Next(s, k, end) == Bound(e, s, end)
    decreases e
  {
    match e
    case Term(name) =>
      assert name in Cover(e).value;
      assert IndexOf(s.names, name) < |s.names|;
    case And(l, r) =>
      BoundRange(l, s, end);
      BoundRange(r, s, end);
      if Cover(l).Some? {
        BoundIsSomewhere(l, s, end);
        BoundAtLeast(l, s, end, 0);
      }
      if Cover(r).Some? {
        BoundIsSomewhere(r, s, end);
        BoundAtLeast(r, s, end, 0);
      }
    case Or(l, r) =>
      BoundIsSomewhere(l, s, end);
      BoundIsSomewhere(r, s, end);
  }

  /** When every stream stands at `low` or later, so does a covered bound. */
  lemma {:induction false} BoundAtLeast(e: Expr, s: Streams, end: int, low: nat)
    requires StreamsOk(s, end) && 0 <= low <= end && Covered(e, s)
    requires forall k | 0 <= k < |s.names| :: Next(s, k, end) >= low
    ensures Bound(e, s, end) >= low
    decreases e
  {
    match e
    case Term(_) =>
    case And(l, r) =>
      if Cover(l).Some? {
        BoundAtLeast(l, s, end, low);
      } else {
        BoundAtLeast(r, s, end, low);
      }
    case Or(l, r) =>
      BoundAtLeast(l, s, end, low);
      BoundAtLeast(r, s, end, low);
  }

  /** Streams have skipped only documents below `floor`. */
  ghost predicate SkippedBelow(s: Streams, floor: int)
    requires |s.values| == |s.positions|
  {
    forall k, i | 0 <= k < |s.values| && 0 <= i < s.positions[k] && i < |s.values[k]| :: s.values[k][i] < floor
  }

  /** No document at `floor` or later that could match is below the bound. */
  lemma {:induction false} BoundIsLower(e: Expr, s: Streams, end: int, terms: Postings, universe: seq<nat>, floor: int,
      x: nat)
    requires StreamsOk(s, end) && end >= 0 && StreamsAre(s, terms, universe) && SkippedBelow(s, floor)
    requires Cover(e).Some? ==> Covered(e, s)
    requires x in universe && floor <= x < end && Possible(e, terms, x)
    ensures Bound(e, s, end) <= x
    decreases e
  {
    BoundRange(e, s, end);
    if Cover(e).Some? {
      match e
      case Term(name) =>
        var k := IndexOf(s.names, name);
        assert name in Cover(e).value;
        NextIsLower(s, end, terms, universe, floor, k, x);
      case And(l, r) =>
        BoundIsLower(l, s, end, terms, universe, floor, x);
        BoundIsLower(r, s, end, terms, universe, floor, x);
      case Or(l, r) =>
        if Possible(l, terms, x) {
          BoundIsLower(l, s, end, terms, universe, floor, x);
        } else {
          BoundIsLower(r, s, end, terms, universe, floor, x);
        }
    }
  }

  /** What all streams have reached and the bound does not exceed could match. */
  lemma {:induction false} ReachedIsPossible(e: Expr, s: Streams, end: int, terms: Postings, universe: seq<nat>, x: nat)
    requires StreamsOk(s, end) && end >= 0 && StreamsAre(s, terms, universe)
    requires forall k | 0 <= k < |s.names| :: Next(s, k, end) >= x
    requires Cover(e).Some? ==> Covered(e, s)
    requires Bound(e, s, end) <= x < end
    ensures Possible(e, terms, x)
    decreases e
  {
    if Cover(e).None? {
      UncoveredIsPossible(e, terms, x);
    } else {
      match e
      case Term(name) =>
        var k := IndexOf(s.names, name);
        assert name in Cover(e).value;
        assert Next(s, k, end) == x;
        assert s.values[k][s.positions[k]] in s.values[k];
      case And(l, r) =>
        ReachedIsPossible(l, s, end, terms, universe, x);
        ReachedIsPossible(r, s, end, terms, universe, x);
      case Or(l, r) =>
        if Bound(l, s, end) <= x {
          ReachedIsPossible(l, s, end, terms, universe, x);
        } else {
          ReachedIsPossible(r, s, end, terms, universe, x);
        }
    }
  }

  lemma NextIsLower(s: Streams, end: int, terms: Postings, universe: seq<nat>, floor: int, k: nat, x: nat)
    requires StreamsOk(s, end) && StreamsAre(s, terms, universe) && SkippedBelow(s, floor)
    requires k < |s.names| && x in universe && floor <= x < end && Has(terms, s.names[k], x)
    ensures Next(s, k, end) <= x
  {
    var i :| 0 <= i < |s.values[k]| && s.values[k][i] == x;
    assert i >= s.positions[k];
  }

  // ----- opening the streams -----

  /** The universe's documents with a term, in order. */
  function StreamOf(terms: Postings, universe: seq<nat>, name: string): seq<nat> {
    if universe == [] then []
    else
      var rest := StreamOf(terms, universe[..|universe| - 1], name);
      var x := universe[|universe| - 1];
      if Has(terms, name, x) then rest + [x] else rest
  }

  lemma {:induction false} StreamMembers(terms: Postings, universe: seq<nat>, name: string)
    ensures forall x: nat :: x in StreamOf(terms, universe, name) <==> x in universe && Has(terms, name, x)
    ensures Rising(universe) ==> Rising(StreamOf(terms, universe, name))
    decreases |universe|
  {
    if universe != [] {
      var init, last := universe[..|universe| - 1], universe[|universe| - 1];
      StreamMembers(terms, init, name);
      assert universe == init + [last];
      var rest := StreamOf(terms, init, name);
      if Rising(universe) {
        forall i | 0 <= i < |rest| ensures rest[i] < last {
          assert rest[i] in init;
        }
      }
    }
  }

  function Sum(s: seq<nat>): nat {
    if s == [] then 0 else Sum(s[..|s| - 1]) + s[|s| - 1]
  }

  function Lengths(values: seq<seq<nat>>): (r: seq<nat>)
    ensures |r| == |values|
  {
    seq(|values|, k requires 0 <= k < |values| => |values[k]|)
  }

  lemma {:induction false} SumGrows(a: seq<nat>, b: seq<nat>)
    requires |a| == |b| && forall k | 0 <= k < |a| :: a[k] <= b[k]
    ensures Sum(a) <= Sum(b)
    ensures a != b ==> Sum(a) < Sum(b)
    decreases |a|
  {
    if a != [] {
      var m := |a| - 1;
      SumGrows(a[..m], b[..m]);
      if a[..m] == b[..m] && a[m] == b[m] {
        assert a == a[..m] + [a[m]] && b == b[..m] + [b[m]];
      }
    }
  }

  function StreamsFor(names: seq<string>, terms: Postings, universe: seq<nat>): (r: seq<seq<nat>>)
    ensures |r| == |names|
  {
    seq(|names|, k requires 0 <= k < |names| => StreamOf(terms, universe, names[k]))
  }

  method OpenStreams(names: seq<string>, terms: Postings, universe: seq<nat>) returns (s: Streams)
    requires Rising(universe)
    ensures s.names == names && |s.values| == |s.positions| == |names| && Sum(s.positions) == 0
    ensures StreamsAre(s, terms, universe) && StreamsOk(s, EndOf(universe))
    ensures s.values == StreamsFor(names, terms, universe) && forall k | 0 <= k < |names| :: s.positions[k] == 0
  {
    var values: seq<seq<nat>> := [];
    var positions: seq<nat> := [];
    var k := 0;
    while k < |names|
      invariant k <= |names| && |values| == k == |positions| && Sum(positions) == 0
      invariant forall j | 0 <= j < k :: values[j] == StreamOf(terms, universe, names[j]) && positions[j] == 0
    {
      values := values + [StreamOf(terms, universe, names[k])];
      assert (positions + [0])[..k] == positions;
      positions := positions + [0];
      k := k + 1;
    }
    s := Streams(names, values, positions);
    OpenedOk(s, terms, universe);
  }

  /** One past the last document. */
  function EndOf(universe: seq<nat>): nat {
    if universe == [] then 0 else universe[|universe| - 1] + 1
  }

  lemma OpenedOk(s: Streams, terms: Postings, universe: seq<nat>)
    requires Rising(universe) && |s.names| == |s.values| == |s.positions|
    requires forall k | 0 <= k < |s.names| :: s.values[k] == StreamOf(terms, universe, s.names[k]) &&
               s.positions[k] == 0
    ensures StreamsAre(s, terms, universe) && StreamsOk(s, EndOf(universe))
  {
    forall k | 0 <= k < |s.names|
      ensures Rising(s.values[k]) && forall x: nat :: x in s.values[k] <==> x in universe && Has(terms, s.names[k], x)
    {
      StreamMembers(terms, universe, s.names[k]);
    }
    forall k, i | 0 <= k < |s.names| && 0 <= i < |s.values[k]| ensures s.values[k][i] < EndOf(universe) {
      assert s.values[k][i] in s.values[k];
      assert s.values[k][i] in universe;
      BelowEnd(universe, s.values[k][i]);
    }
  }

  lemma BelowEnd(universe: seq<nat>, x: nat)
    requires Rising(universe) && x in universe
    ensures x < EndOf(universe)
  {
  }

  // ----- moving the streams -----

  ghost predicate Moved(s: Streams, t: Streams) {
    && t.names == s.names && t.values == s.values && |t.positions| == |s.positions|
    && forall k | 0 <= k < |s.positions| :: s.positions[k] <= t.positions[k]
  }

  /** The first position from `from` on whose document is at least `base`. */
  method Seek(values: seq<nat>, from: nat, base: nat) returns (at: nat)
    requires Rising(values) && from <= |values|
    ensures from <= at <= |values|
    ensures forall i | from <= i < at :: values[i] < base
    ensures at < |values| ==> values[at] >= base
  {
    var rest := values[from..];
    assert forall i, j | 0 <= i < j < |rest| :: rest[i] < rest[j] by {
      forall i, j | 0 <= i < j < |rest| ensures rest[i] < rest[j] {
        assert values[from + i] < values[from + j];
      }
    }
    var low := LowerBound(rest, (v: nat) => v < base);
    at := from + low;
    forall i | from <= i < at ensures values[i] < base {
      assert rest[i - from] == values[i];
    }
    assert at < |values| ==> rest[low] == values[at];
  }

  method SeekAll(s: Streams, base: nat, ghost end: int) returns (t: Streams)
    requires StreamsOk(s, end) && base <= end && SkippedBelow(s, base)
    ensures Moved(s, t) && StreamsOk(t, end) && SkippedBelow(t, base)
    ensures forall k | 0 <= k < |t.names| :: Next(t, k, end) >= base
  {
    var positions: seq<nat> := s.positions;
    var k := 0;
    while k < |s.names|
      invariant k <= |s.names| && |positions| == |s.positions|
      invariant Moved(s, Streams(s.names, s.values, positions)) && StreamsOk(Streams(s.names, s.values, positions), end)
      invariant SkippedBelow(Streams(s.names, s.values, positions), base)
      invariant forall j | 0 <= j < k :: Next(Streams(s.names, s.values, positions), j, end) >= base
      invariant forall j | k <= j < |positions| :: positions[j] == s.positions[j]
    {
      var at := Seek(s.values[k], s.positions[k], base);
      ghost var was := Streams(s.names, s.values, positions);
      positions := positions[k := at];
      ghost var now := Streams(s.names, s.values, positions);
      assert forall j | 0 <= j < k :: Next(now, j, end) == Next(was, j, end);
      k := k + 1;
    }
    t := Streams(s.names, s.values, positions);
  }

  /** Passes `base` on every stream that stands there. */
  method PassAll(s: Streams, base: nat, ghost end: int) returns (t: Streams)
    requires StreamsOk(s, end) && base < end && SkippedBelow(s, base)
    requires forall k | 0 <= k < |s.names| :: Next(s, k, end) >= base
    ensures Moved(s, t) && StreamsOk(t, end) && SkippedBelow(t, base + 1)
    ensures forall k | 0 <= k < |t.names| :: Next(t, k, end) >= base + 1
    ensures (exists k :: 0 <= k < |s.names| && Next(s, k, end) == base) ==> t.positions != s.positions
  {
    var positions: seq<nat> := [];
    var k := 0;
    while k < |s.names|
      invariant k <= |s.names| && |positions| == k
      invariant forall j | 0 <= j < k :: positions[j] == PassOne(s.values[j], s.positions[j], base)
    {
      positions := positions + [PassOne(s.values[k], s.positions[k], base)];
      k := k + 1;
    }
    t := Streams(s.names, s.values, positions);
    Passed(s, t, base, end);
  }

  function PassOne(values: seq<nat>, position: nat, base: nat): nat {
    if position < |values| && values[position] == base then position + 1 else position
  }

  lemma Passed(s: Streams, t: Streams, base: nat, end: int)
    requires StreamsOk(s, end) && base < end && SkippedBelow(s, base)
    requires forall k | 0 <= k < |s.names| :: Next(s, k, end) >= base
    requires t.names == s.names && t.values == s.values && |t.positions| == |s.positions|
    requires forall k | 0 <= k < |s.names| :: t.positions[k] == PassOne(s.values[k], s.positions[k], base)
    ensures Moved(s, t) && StreamsOk(t, end) && SkippedBelow(t, base + 1)
    ensures forall k | 0 <= k < |t.names| :: Next(t, k, end) >= base + 1
    ensures (exists k :: 0 <= k < |s.names| && Next(s, k, end) == base) ==> t.positions != s.positions
  {
    forall k | 0 <= k < |t.names| ensures Next(t, k, end) >= base + 1 {
      assert Next(s, k, end) >= base;
    }
  }

  // ----- the loop -----

  /** Everything below `floor` is settled: what could match is out, and nothing else; streams have passed it. */
  ghost predicate Settled(e: Expr, s: Streams, terms: Postings, universe: seq<nat>, floor: nat, output: seq<nat>) {
    var end := EndOf(universe);
    && StreamsOk(s, end) && StreamsAre(s, terms, universe) && floor <= end
    && SkippedBelow(s, floor) && (forall k | 0 <= k < |s.names| :: Next(s, k, end) >= floor)
    && (forall x | x in universe && x < floor :: x in output <==> Possible(e, terms, x))
    && Rising(output) && (forall x | x in output :: x in universe && x < floor)
  }

  /** Raising the floor to the bound skips nothing that could match. */
  lemma RaiseFloor(e: Expr, s: Streams, t: Streams, terms: Postings, universe: seq<nat>, floor: nat, output: seq<nat>)
    requires Rising(universe) && Settled(e, s, terms, universe, floor, output) && Covered(e, s)
    requires var end := EndOf(universe);
             var base := Bound(e, s, end);
             && 0 <= base && Moved(s, t) && StreamsOk(t, end) && SkippedBelow(t, base)
             && forall k | 0 <= k < |t.names| :: Next(t, k, end) >= base
    ensures Settled(e, t, terms, universe, Bound(e, s, EndOf(universe)), output)
  {
    var end := EndOf(universe);
    BoundRange(e, s, end);
    BoundAtLeast(e, s, end, floor);
    var base := Bound(e, s, end);
    forall x | x in universe && x < base ensures x in output <==> Possible(e, terms, x) {
      if x >= floor && Possible(e, terms, x) {
        BelowEnd(universe, x);
        BoundIsLower(e, s, end, terms, universe, floor, x);
      }
    }
  }

  lemma Emit(e: Expr, s: Streams, t: Streams, terms: Postings, universe: seq<nat>, base: nat, output: seq<nat>, k: nat)
    requires Settled(e, s, terms, universe, base, output) && base < EndOf(universe)
    requires k < |s.names| && Next(s, k, EndOf(universe)) == base
    requires Covered(e, s) && Bound(e, s, EndOf(universe)) == base
    requires var end := EndOf(universe);
             && Moved(s, t) && StreamsOk(t, end) && SkippedBelow(t, base + 1)
             && forall k | 0 <= k < |t.names| :: Next(t, k, end) >= base + 1
    ensures Settled(e, t, terms, universe, base + 1, output + [base])
    ensures output != [] ==> output[|output| - 1] < base
  {
    assert base in s.values[k];
    ReachedIsPossible(e, s, EndOf(universe), terms, universe, base);
    var more := output + [base];
    forall i, j | 0 <= i < j < |more| ensures more[i] < more[j] {
      assert j == |output| ==> more[i] in output;
    }
    assert output != [] ==> output[|output| - 1] in output;
  }

  /**
   Skips to the bound until nothing moves, emits it, and goes past it. It always ends within
   the stated number of probes; its output rises and is exactly what could match when every
   NOT is read as true, so no match is missed and without a NOT nothing else is emitted.
   */
  method Candidates(e: Expr, terms: Postings, universe: seq<nat>) returns (r: Option<seq<nat>>, probes: nat)
    requires Rising(universe)
    ensures r.Some? && Rising(r.value) && (forall x | x in r.value :: x in universe)
    ensures forall x | x in universe :: x in r.value <==> Possible(e, terms, x)
    ensures forall x | x in universe && Matches(e, terms, x) :: x in r.value
    ensures !HasNot(e) ==> forall x | x in universe :: x in r.value <==> Matches(e, terms, x)
    ensures Cover(e).None? ==> r.value == universe && probes == 0
    ensures Cover(e).Some? ==>
              probes <= 1 + Sum(Lengths(StreamsFor(Cover(e).value, terms, universe)))
  {
    hide Settled, StreamsOk, StreamsAre, SkippedBelow, Bound, Rising, Next, Matches, Possible, HasNot, StreamsFor, Sum,
      Lengths, Cover;
    forall x: nat ensures Matches(e, terms, x) ==> Possible(e, terms, x)
      ensures !HasNot(e) ==> Matches(e, terms, x) == Possible(e, terms, x)
    {
      MatchIsPossible(e, terms, x);
    }
    var positive := Cover(e);
    if positive.None? {
      forall x | x in universe ensures Possible(e, terms, x) {
        UncoveredIsPossible(e, terms, x);
      }
      return Some(universe), 0;
    }
    var end := EndOf(universe);
    var s := OpenStreams(positive.value, terms, universe);
    StartSettled(e, s, terms, universe);
    ghost var total := Sum(Lengths(s.values));
    ghost var values := s.values;
    var limit := Sum(Lengths(s.values)) + |universe| + 1;
    var output: seq<nat> := [];
    ghost var floor := 0;
    probes := 0;
    while probes < limit
      invariant Settled(e, s, terms, universe, floor, output) && Covered(e, s)
      invariant s.values == values && |s.values| == |s.positions| == |s.names|
      invariant probes <= Sum(s.positions) <= total
    {
      SettledFacts(e, s, terms, universe, floor, output);
      BoundRange(e, s, end);
      BoundAtLeast(e, s, end, floor);
      BoundIsSomewhere(e, s, end);
      var base := Bound(e, s, end);
      probes := probes + 1;
      if base == end {
        AllOut(e, s, terms, universe, floor, output);
        return Some(output), probes;
      }
      if base < 0 {
        return None, probes;
      }
      SkipMore(s, floor, base);
      var t := SeekAll(s, base, end);
      RaiseFloor(e, s, t, terms, universe, floor, output);
      PositionsGrow(s, t, end);
      floor := base;
      var advanced := t.positions != s.positions;
      var was := s;
      s := t;
      if !advanced {
        assert s == was;
        if output != [] && output[|output| - 1] >= base {
          ghost var k :| 0 <= k < |s.names| && Next(s, k, end) == base;
          SettledFacts(e, s, terms, universe, floor, output);
          EmitsAbove(e, s, terms, universe, base, output);
          return None, probes;
        }
        SettledFacts(e, s, terms, universe, floor, output);
        var u := PassAll(s, base, end);
        ghost var k :| 0 <= k < |s.names| && Next(s, k, end) == base;
        Emit(e, s, u, terms, universe, base, output, k);
        PositionsGrow(s, u, end);
        output := output + [base];
        floor := base + 1;
        s := u;
      }
    }
    return None, probes;
  }

  lemma StartSettled(e: Expr, s: Streams, terms: Postings, universe: seq<nat>)
    requires Cover(e).Some? && s.names == Cover(e).value && |s.names| == |s.positions|
    requires StreamsAre(s, terms, universe) && StreamsOk(s, EndOf(universe))
    requires forall k | 0 <= k < |s.names| :: s.positions[k] == 0
    ensures Settled(e, s, terms, universe, 0, []) && Covered(e, s)
  {
  }

  lemma SettledFacts(e: Expr, s: Streams, terms: Postings, universe: seq<nat>, floor: nat, output: seq<nat>)
    requires Settled(e, s, terms, universe, floor, output)
    ensures var end := EndOf(universe);
            && StreamsOk(s, end) && StreamsAre(s, terms, universe) && floor <= end && SkippedBelow(s, floor)
            && (forall k | 0 <= k < |s.names| :: Next(s, k, end) >= floor)
            && Rising(output) && (forall x | x in output :: x in universe && x < floor)
  {
  }

  lemma EmitsAbove(e: Expr, s: Streams, terms: Postings, universe: seq<nat>, base: nat, output: seq<nat>)
    requires Settled(e, s, terms, universe, base, output)
    ensures output != [] ==> output[|output| - 1] < base
  {
    assert output != [] ==> output[|output| - 1] in output;
  }

  lemma SkipMore(s: Streams, floor: int, base: int)
    requires |s.values| == |s.positions| && SkippedBelow(s, floor) && floor <= base
    ensures SkippedBelow(s, base)
  {
  }

  lemma AllOut(e: Expr, s: Streams, terms: Postings, universe: seq<nat>, floor: nat, output: seq<nat>)
    requires Rising(universe) && Settled(e, s, terms, universe, floor, output) && Covered(e, s) &&
               Bound(e, s, EndOf(universe)) == EndOf(universe)
    ensures forall x | x in universe :: x in output <==> Possible(e, terms, x)
  {
    forall x | x in universe ensures x in output <==> Possible(e, terms, x) {
      BelowEnd(universe, x);
      if x >= floor && Possible(e, terms, x) {
        BoundIsLower(e, s, EndOf(universe), terms, universe, floor, x);
      }
    }
  }

  lemma PositionsGrow(s: Streams, t: Streams, end: int)
    requires Moved(s, t) && StreamsOk(t, end)
    ensures Sum(s.positions) <= Sum(t.positions) <= Sum(Lengths(t.values))
    ensures s.positions != t.positions ==> Sum(s.positions) < Sum(t.positions)
  {
    SumGrows(s.positions, t.positions);
    SumGrows(t.positions, Lengths(t.values));
  }
}
