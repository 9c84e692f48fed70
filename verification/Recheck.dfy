/** Streaming rechecks of one term or one phrase against full analysis followed by the oracle. */
module Recheck {
  import opened Outcomes
  import opened QueryTree
  import opened Oracle

  datatype AnalysisLimits = AnalysisLimits(tokens: nat, termBytes: nat)

  const WINDOW: nat := 64

  // ----- full analysis -----

  /** The error analysis reports for the words from `i` on, if any. */
  function AnalysisError(words: seq<string>, limits: AnalysisLimits, i: nat): Option<SearchError>
    decreases |words| - i
  {
    if i >= |words| then None
    else if |words[i]| > limits.termBytes then Some(TermBytes)
    else if i >= limits.tokens then Some(ElementCount)
    else AnalysisError(words, limits, i + 1)
  }

  /** Analysis, and then the oracle on the analyzed words. */
  function Full(words: seq<string>, limits: AnalysisLimits, e: Expr, maxSteps: nat): Result<bool, SearchError> {
    var error := AnalysisError(words, limits, 0);
    if error.Some? then Err(error.value) else Judge(words, e, maxSteps)
  }

  /** The materialized form: collect the tokens, then run the oracle. */
  method AnalyzeThenMatch(words: seq<string>, limits: AnalysisLimits, leaf: Leaf, maxSteps: nat)
      returns (r: Result<bool, SearchError>)
    ensures r == Full(words, limits, Lit(leaf), maxSteps)
  {
    var tokens: seq<string> := [];
    var i := 0;
    while i < |words|
      invariant i <= |words| && tokens == words[..i]
      invariant AnalysisError(words, limits, 0) == AnalysisError(words, limits, i)
      invariant i <= limits.tokens
    {
      if |words[i]| > limits.termBytes {
        return Err(TermBytes);
      }
      if |tokens| + 1 > limits.tokens {
        return Err(ElementCount);
      }
      tokens := tokens + [words[i]];
      i := i + 1;
    }
    assert tokens == words;
    r := MatchDocument(tokens, [LitNode(leaf)], Lit(leaf), maxSteps);
  }

  // ----- one term -----

  lemma {:induction false} ScanCostSkips(doc: Document, leaf: Leaf, i: nat)
    requires i <= |doc| && forall k | 0 <= k < i :: !WordFits(leaf, doc[k])
    ensures ScanCost(doc, leaf, 0) == i + ScanCost(doc, leaf, i)
    decreases i
  {
    if i > 0 {
      ScanCostSkips(doc, leaf, i - 1);
    }
  }

  /** Counts every word, compares only while the budget lasts, and charges at the end. */
  method MatchWords(words: seq<string>, term: string, limits: AnalysisLimits, maxSteps: nat)
      returns (r: Result<bool, SearchError>)
    ensures r == Full(words, limits, Lit(Word(term)), maxSteps)
  {
    var tokens := 0;
    var firstMatch: Option<nat> := None;
    var left: nat := if maxSteps == 0 then 0 else maxSteps - 1;
    var i := 0;
    ghost var budget := left;
    while i < |words|
      invariant i <= |words| && tokens == i <= limits.tokens
      invariant AnalysisError(words, limits, 0) == AnalysisError(words, limits, i)
      invariant firstMatch.None? ==> left == (if i <= budget then budget - i else 0)
      invariant firstMatch.None? ==> forall k | 0 <= k < i && k < budget :: words[k] != term
      invariant firstMatch.Some? ==>
                  && 0 < firstMatch.value <= i && firstMatch.value <= budget && words[firstMatch.value - 1] == term
                  && forall k | 0 <= k < firstMatch.value - 1 :: words[k] != term
    {
      if |words[i]| > limits.termBytes {
        return Err(TermBytes);
      }
      if tokens == limits.tokens {
        return Err(ElementCount);
      }
      tokens := tokens + 1;
      if firstMatch.None? && left != 0 {
        left := left - 1;
        if words[i] == term {
          firstMatch := Some(tokens);
        }
      }
      i := i + 1;
    }
    var comparisons := if firstMatch.Some? then firstMatch.value else tokens;
    TermOutcome(words, term, budget, firstMatch);
    if maxSteps < 1 || maxSteps - 1 < comparisons {
      return Err(SearchWork);
    }
    return Ok(firstMatch.Some?);
  }

  lemma TermOutcome(words: seq<string>, term: string, budget: nat, firstMatch: Option<nat>)
    requires firstMatch.None? ==> forall k | 0 <= k < |words| && k < budget :: words[k] != term
    requires firstMatch.Some? ==>
               && 0 < firstMatch.value <= |words| && firstMatch.value <= budget && words[firstMatch.value - 1] == term
               && forall k | 0 <= k < firstMatch.value - 1 :: words[k] != term
    ensures firstMatch.Some? ==> LeafHolds(words, Word(term)) && LeafCost(words, Word(term)) == firstMatch.value
    ensures firstMatch.None? ==>
              if |words| <= budget then !LeafHolds(words, Word(term)) && LeafCost(words, Word(term)) == |words|
              else LeafCost(words, Word(term)) > budget
  {
    var leaf := Word(term);
    if firstMatch.Some? {
      ScanCostSkips(words, leaf, firstMatch.value - 1);
      assert words[firstMatch.value - 1] in words;
    } else if |words| <= budget {
      ScanCostSkips(words, leaf, |words|);
    } else {
      ScanCostSkips(words, leaf, budget);
    }
  }

  // ----- one phrase -----

  /** Where the ring keeps the `q`-th oldest of its `width` words. */
  function RingIndex(cursor: nat, width: nat, q: nat): nat {
    if cursor + q < width then cursor + q else cursor + q - width
  }

  /** After `i` words the ring holds the last `width` of them, or all when there are fewer. */
  ghost predicate Rings(window: seq<string>, cursor: nat, width: nat, words: seq<string>, i: nat) {
    && 0 < width <= |window| && cursor < width && i <= |words|
    && (i < width ==> cursor == i && forall k | 0 <= k < i :: window[k] == words[k])
    && (i >= width ==>
          && width + cursor <= i
          && (forall k | 0 <= k < cursor :: window[k] == words[i - cursor + k])
          && (forall k | cursor <= k < width :: window[k] == words[i - cursor - width + k]))
  }

  lemma RingPush(window: seq<string>, cursor: nat, width: nat, words: seq<string>, i: nat)
    requires Rings(window, cursor, width, words, i) && i < |words|
    ensures var next := if cursor + 1 == width then 0 else cursor + 1;
            Rings(window[cursor := words[i]], next, width, words, i + 1)
  {
  }

  lemma RingOrder(window: seq<string>, cursor: nat, width: nat, words: seq<string>, i: nat, q: nat)
    requires Rings(window, cursor, width, words, i) && width <= i && q < width
    ensures window[RingIndex(cursor, width, q)] == words[i - width + q]
  {
  }

  /** Compares the ring, oldest word first: its value and the work left, or None when that runs out. */
  method CompareRing(window: array<string>, cursor: nat, terms: seq<string>, left: nat, ghost words: seq<string>,
      ghost i: nat)
    returns (r: Option<(bool, nat)>)
    requires Rings(window[..], cursor, |terms|, words, i) && |terms| <= i
    ensures var start := i - |terms|;
            r == if WindowCost(words, terms, start, 0) <= left
                 then Some((PhraseAt(words, terms, start), left - WindowCost(words, terms, start, 0)))
                 else None
  {
    hide Rings;
    RingShape(window[..], cursor, |terms|, words, i);
    ghost var start := i - |terms|;
    var work: nat := left;
    var d := 0;
    while d < |terms|
      invariant d <= |terms| && work <= left
      invariant words[start..start + d] == terms[..d]
      invariant WindowCost(words, terms, start, 0) == (left - work) + WindowCost(words, terms, start, d)
    {
      RingOrder(window[..], cursor, |terms|, words, i, d);
      if work == 0 {
        return None;
      }
      work := work - 1;
      if window[RingIndex(cursor, |terms|, d)] != terms[d] {
        assert words[start..start + |terms|][d] == words[start + d];
        return Some((false, work));
      }
      assert words[start..start + d + 1] == words[start..start + d] + [words[start + d]];
      d := d + 1;
    }
    assert terms[..d] == terms;
    return Some((true, work));
  }

  lemma RingShape(window: seq<string>, cursor: nat, width: nat, words: seq<string>, i: nat)
    requires Rings(window, cursor, width, words, i)
    ensures 0 < width <= |window| && cursor < width && i <= |words|
  {
  }

  datatype Verdict = Running | Found | Exhausted

  /** How many windows end within the first `i` words. */
  function Windows(i: nat, width: nat): nat {
    if i < width then 0 else i - width + 1
  }

  /** What a verdict after `i` words says about the whole document. */
  ghost predicate Stands(v: Verdict, words: seq<string>, terms: seq<string>, i: nat, budget: nat, left: nat) {
    match v
    case Running =>
      && left <= budget
      && (forall k | 0 <= k < Windows(i, |terms|) :: !PhraseAt(words, terms, k))
      && PhraseCost(words, terms, 0) == (budget - left) + PhraseCost(words, terms, Windows(i, |terms|))
    case Found =>
      LeafHolds(words, Phrase(terms)) && PhraseCost(words, terms, 0) <= budget
    case Exhausted => PhraseCost(words, terms, 0) > budget
  }

  lemma WindowDone(words: seq<string>, terms: seq<string>, i: nat, budget: nat, left: nat, w: Option<(bool, nat)>)
    requires Stands(Running, words, terms, i, budget, left) && 0 < |terms| && i < |words| && |terms| <= i + 1
    requires var start := i + 1 - |terms|;
             w == if WindowCost(words, terms, start, 0) <= left
                  then Some((PhraseAt(words, terms, start), left - WindowCost(words, terms, start, 0)))
                  else None
    ensures w.None? ==> Stands(Exhausted, words, terms, i + 1, budget, left)
    ensures w.Some? ==> Stands(if w.value.0 then Found else Running, words, terms, i + 1, budget, w.value.1)
  {
    hide PhraseAt, WindowCost, PhraseCost;
    var start := i + 1 - |terms|;
    assert Windows(i, |terms|) == start && Windows(i + 1, |terms|) == start + 1;
    CostOfWindow(words, terms, start);
  }

  /** The comparisons from a window on: its own, and the rest unless it is equal. */
  lemma CostOfWindow(words: seq<string>, terms: seq<string>, start: nat)
    requires start < |words| && start + |terms| <= |words|
    ensures PhraseCost(words, terms, start)
              == WindowCost(words, terms, start, 0) + if PhraseAt(words, terms, start) then 0
                  else PhraseCost(words, terms, start + 1)
  {
  }

  /**
   Keeps the last |terms| words in a ring and compares each full window. A hit or an
   exhausted budget stops comparing, never the checking of the remaining words.
   */
  method MatchPhraseWords(words: seq<string>, terms: seq<string>, limits: AnalysisLimits, maxSteps: nat)
      returns (r: Result<bool, SearchError>)
    requires 0 < |terms| <= WINDOW
    ensures r == Full(words, limits, Lit(Phrase(terms)), maxSteps)
  {
    hide Rings, Stands, PhraseCost, PhraseAt, WindowCost, LeafHolds, LeafCost;
    var window := new string[WINDOW](_ => "");
    var width := |terms|;
    var cursor, filled := 0, 0;
    var found := false;
    var exhausted := maxSteps < 1;
    ghost var budget: nat := if maxSteps < 1 then 0 else maxSteps - 1;
    var left: nat := if maxSteps < 1 then 0 else maxSteps - 1;
    StartPhrase(window[..], words, terms, budget);
    var i := 0;
    while i < |words|
      invariant i <= |words| && i <= limits.tokens
      invariant AnalysisError(words, limits, 0) == AnalysisError(words, limits, i)
      invariant !found && !exhausted ==>
                  && Rings(window[..], cursor, width, words, i) && filled == (if i < width then i else width)
                  && Stands(Running, words, terms, i, budget, left)
      invariant found ==> !exhausted && maxSteps >= 1 && Stands(Found, words, terms, i, budget, left)
      invariant exhausted ==> maxSteps < 1 || Stands(Exhausted, words, terms, i, budget, left)
      invariant maxSteps < 1 ==> exhausted
    {
      if |words[i]| > limits.termBytes {
        return Err(TermBytes);
      }
      if i == limits.tokens {
        return Err(ElementCount);
      }
      if found || exhausted {
        EndedStands(words, terms, i, budget, left);
      } else {
        RingShape(window[..], cursor, width, words, i);
        RingPush(window[..], cursor, width, words, i);
        ghost var before := window[..];
        window[cursor] := words[i];
        assert window[..] == before[cursor := words[i]];
        cursor := cursor + 1;
        if cursor == width {
          cursor := 0;
        }
        filled := if filled + 1 < width then filled + 1 else width;
        if filled == width {
          var w := CompareRing(window, cursor, terms, left, words, i + 1);
          WindowDone(words, terms, i, budget, left, w);
          if w.None? {
            exhausted := true;
          } else {
            found, left := w.value.0, w.value.1;
          }
        } else {
          NoWindow(words, terms, i, budget, left);
        }
      }
      i := i + 1;
    }
    PhraseOutcome(words, terms, budget, left);
    if exhausted {
      return Err(SearchWork);
    }
    return Ok(found);
  }

  lemma StartPhrase(window: seq<string>, words: seq<string>, terms: seq<string>, budget: nat)
    requires 0 < |terms| <= WINDOW == |window|
    ensures Rings(window, 0, |terms|, words, 0) && Stands(Running, words, terms, 0, budget, budget)
  {
  }

  lemma EndedStands(words: seq<string>, terms: seq<string>, i: nat, budget: nat, left: nat)
    ensures Stands(Found, words, terms, i, budget, left) == Stands(Found, words, terms, i + 1, budget, left)
    ensures Stands(Exhausted, words, terms, i, budget, left) == Stands(Exhausted, words, terms, i + 1, budget, left)
  {
  }

  lemma NoWindow(words: seq<string>, terms: seq<string>, i: nat, budget: nat, left: nat)
    requires Stands(Running, words, terms, i, budget, left) && i + 1 < |terms|
    ensures Stands(Running, words, terms, i + 1, budget, left)
  {
  }

  lemma PhraseOutcome(words: seq<string>, terms: seq<string>, budget: nat, left: nat)
    requires 0 < |terms|
    ensures Stands(Running, words, terms, |words|, budget, left) ==>
              !LeafHolds(words, Phrase(terms)) && LeafCost(words, Phrase(terms)) <= budget
    ensures Stands(Found, words, terms, |words|, budget, left) ==>
              LeafHolds(words, Phrase(terms)) && LeafCost(words, Phrase(terms)) <= budget
    ensures Stands(Exhausted, words, terms, |words|, budget, left) ==> LeafCost(words, Phrase(terms)) > budget
  {
  }
}
