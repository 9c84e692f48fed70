/** The stored form of one document: each distinct word once, with its positions. */
module StoredDocument {
  import opened FiniteSets
  import opened Ordering
  import opened Varints
  import opened PositionStreams
  import opened Oracle

  const MAX_TOKENS: nat := 262_144
  const MAX_TERM: nat := 1024
  const MAX_BYTES: nat := 8_388_608
  const HEADER: nat := 16

  datatype Entry = Entry(term: string, stream: seq<Byte>)

  datatype Payload = Payload(tokens: nat, entries: seq<Entry>)

  function EntriesBytes(entries: seq<Entry>): nat {
    if entries == [] then 0
    else
      var e := entries[|entries| - 1];
      EntriesBytes(entries[..|entries| - 1]) + 8 + |e.term| + |e.stream|
  }

  function PayloadBytes(p: Payload): nat {
    HEADER + EntriesBytes(p.entries)
  }

  // ----- positions of a word -----

  function PositionsOf(words: Document, term: string): seq<nat> {
    if words == [] then []
    else
      var n := |words| - 1;
      PositionsOf(words[..n], term) + if words[n] == term then [n] else []
  }

  lemma {:induction false} PositionsMembers(words: Document, term: string)
    ensures forall x: nat :: x in PositionsOf(words, term) <==> x < |words| && words[x] == term
    ensures forall i, j | 0 <= i < j < |PositionsOf(words, term)| ::
              PositionsOf(words, term)[i] < PositionsOf(words, term)[j]
    decreases |words|
  {
    if words != [] {
      var n := |words| - 1;
      var init := words[..n];
      PositionsMembers(init, term);
      var ps := PositionsOf(init, term);
      forall i | 0 <= i < |ps| ensures ps[i] < n {
        assert ps[i] in ps;
      }
    }
  }

  lemma PositionsStep(words: Document, term: string)
    requires |words| <= MAX_TOKENS
    ensures Steps(PositionsOf(words, term), 0, true) && |PositionsOf(words, term)| <= |words|
  {
    PositionsMembers(words, term);
    var ps := PositionsOf(words, term);
    forall i | 0 <= i < |ps| ensures ps[i] < |words| {
      assert ps[i] in ps;
    }
    StepsIncrease(ps, 0, true);
    PositionsShort(words, term);
  }

  lemma {:induction false} PositionsShort(words: Document, term: string)
    ensures |PositionsOf(words, term)| <= |words|
    decreases |words|
  {
    if words != [] {
      PositionsShort(words[..|words| - 1], term);
    }
  }

  // ----- what a payload records -----

  ghost predicate Rising(entries: seq<Entry>) {
    forall i, j | 0 <= i < j < |entries| :: Less(entries[i].term, entries[j].term)
  }

  ghost predicate EntryFor(words: Document, e: Entry) {
    && 0 < |e.term| <= MAX_TERM && e.term in words && |words| <= MAX_TOKENS
    && Steps(PositionsOf(words, e.term), 0, true) && |PositionsOf(words, e.term)| < LIMIT
    && e.stream == Encode(PositionsOf(words, e.term))
  }

  predicate HasEntry(entries: seq<Entry>, term: string) {
    exists i :: 0 <= i < |entries| && entries[i].term == term
  }

  /** The payload lists the distinct words in order, each with exactly its positions. */
  ghost predicate Describes(words: Document, p: Payload) {
    && p.tokens == |words| <= MAX_TOKENS
    && Rising(p.entries)
    && (forall i | 0 <= i < |p.entries| :: EntryFor(words, p.entries[i]))
    && (forall k | 0 <= k < |words| :: HasEntry(p.entries, words[k]))
  }

  /** A payload describes at most one word sequence. */
  lemma DescribedOnce(p: Payload, a: Document, b: Document)
    requires Describes(a, p) && Describes(b, p)
    ensures a == b
  {
    forall k | 0 <= k < |a| ensures a[k] == b[k] {
      assert HasEntry(p.entries, a[k]);
      var i :| 0 <= i < |p.entries| && p.entries[i].term == a[k];
      assert EntryFor(a, p.entries[i]) && EntryFor(b, p.entries[i]);
      EncodedParses(PositionsOf(a, a[k]), LIMIT);
      EncodedParses(PositionsOf(b, a[k]), LIMIT);
      PositionsMembers(a, a[k]);
      PositionsMembers(b, a[k]);
    }
  }

  lemma LessAsymmetric(a: string, b: string)
    ensures !(Less(a, b) && Less(b, a))
  {
    if Less(a, b) && Less(b, a) {
      LessTrans(a, b, a);
      LessIrreflexive(a);
    }
  }

  lemma LastIsHighest(entries: seq<Entry>, e: Entry)
    requires Rising(entries) && e in entries
    ensures e == entries[|entries| - 1] || Less(e.term, entries[|entries| - 1].term)
  {
  }

  /** Two rising lists with the same entries are the same list. */
  lemma {:induction false} SameRising(a: seq<Entry>, b: seq<Entry>)
    requires Rising(a) && Rising(b) && forall e :: e in a <==> e in b
    ensures a == b
    decreases |a|
  {
    if b != [] {
      assert b[0] in a;
    }
    if a != [] {
      hide Less;
      var x := a[|a| - 1];
      assert x in a;
      var y := b[|b| - 1];
      assert y in b;
      LastIsHighest(a, y);
      LastIsHighest(b, x);
      LessAsymmetric(x.term, y.term);
      var a0, b0 := a[..|a| - 1], b[..|b| - 1];
      LessIrreflexive(x.term);
      assert a == a0 + [x] && b == b0 + [y];
      forall e ensures e in a0 <==> e in b0 {
        assert e in a <==> e in a0 || e == x;
        assert e in b <==> e in b0 || e == y;
      }
      SameRising(a0, b0);
    }
  }

  lemma EntryInOther(words: Document, p: Payload, q: Payload, e: Entry)
    requires Describes(words, p) && Describes(words, q) && e in p.entries
    ensures e in q.entries
  {
    var i :| 0 <= i < |p.entries| && p.entries[i] == e;
    assert EntryFor(words, e);
    var k :| 0 <= k < |words| && words[k] == e.term;
    assert HasEntry(q.entries, words[k]);
    var j :| 0 <= j < |q.entries| && q.entries[j].term == e.term;
    assert EntryFor(words, q.entries[j]);
    assert q.entries[j] == e;
  }

  /** A word sequence has at most one payload. */
  lemma PayloadOnce(words: Document, p: Payload, q: Payload)
    requires Describes(words, p) && Describes(words, q)
    ensures p == q
  {
    hide EntryFor;
    forall e ensures e in p.entries <==> e in q.entries {
      if e in p.entries {
        EntryInOther(words, p, q, e);
      }
      if e in q.entries {
        EntryInOther(words, q, p, e);
      }
    }
    SameRising(p.entries, q.entries);
  }

  /** `p` is the stored form of the words, within the size limit. */
  ghost predicate Stored(words: Document, p: Payload) {
    Describes(words, p) && PayloadBytes(p) <= MAX_BYTES
  }

  /** Words and payloads determine each other. */
  lemma StoredOneToOne(a: Document, p: Payload, b: Document, q: Payload)
    requires Stored(a, p) && Stored(b, q)
    ensures a == b <==> p == q
  {
    hide Describes;
    if a == b {
      PayloadOnce(a, p, q);
    }
    if p == q {
      DescribedOnce(p, a, b);
    }
  }

  // ----- what validation checks -----

  function Positions(e: Entry): seq<nat> {
    var r := Parse(e.stream, MAX_TOKENS);
    if r.Ok? then r.value else []
  }

  ghost predicate EntryGood(e: Entry, tokens: nat) {
    && 0 < |e.term| <= MAX_TERM && Parse(e.stream, MAX_TOKENS).Ok? && Positions(e) != []
    && (forall x | x in Positions(e) :: x < tokens)
  }

  ghost predicate Apart(entries: seq<Entry>) {
    forall i, j, x | 0 <= i < j < |entries| && x in Positions(entries[i]) :: x !in Positions(entries[j])
  }

  function Total(entries: seq<Entry>): nat {
    if entries == [] then 0 else Total(entries[..|entries| - 1]) + |Positions(entries[|entries| - 1])|
  }

  ghost function Covered(entries: seq<Entry>): set<nat> {
    if entries == [] then {} else Covered(entries[..|entries| - 1]) + ToSet(Positions(entries[|entries| - 1]))
  }

  ghost predicate Good(p: Payload) {
    && p.tokens <= MAX_TOKENS && Rising(p.entries)
    && (forall i | 0 <= i < |p.entries| :: EntryGood(p.entries[i], p.tokens))
    && Apart(p.entries) && Total(p.entries) == p.tokens
  }

  lemma {:induction false} CoveredMembers(entries: seq<Entry>, x: nat)
    ensures x in Covered(entries) <==> exists i :: 0 <= i < |entries| && x in Positions(entries[i])
    decreases |entries|
  {
    hide Positions;
    if entries != [] {
      var init := entries[..|entries| - 1];
      CoveredMembers(init, x);
      if x in Covered(init) {
        var i :| 0 <= i < |init| && x in Positions(init[i]);
        assert x in Positions(entries[i]);
      }
      if i :| 0 <= i < |entries| && x in Positions(entries[i]) {
        assert i < |init| ==> x in Positions(init[i]);
      }
    }
  }

  lemma ParsedPositions(e: Entry)
    requires Parse(e.stream, MAX_TOKENS).Ok?
    ensures NoDuplicates(Positions(e)) && Steps(Positions(e), 0, true) && |Positions(e)| < LIMIT &&
              e.stream == Encode(Positions(e))
  {
    hide Parse, Encode;
    ParsedIsEncoded(e.stream, MAX_TOKENS);
    StepsIncrease(Positions(e), 0, true);
  }

  /** Disjoint lists cover as many positions as they have. */
  lemma {:induction false} CoveredSize(entries: seq<Entry>, tokens: nat)
    requires Apart(entries) && forall i | 0 <= i < |entries| :: EntryGood(entries[i], tokens)
    ensures |Covered(entries)| == Total(entries) && Covered(entries) <= Below(tokens)
    decreases |entries|
  {
    hide Positions, Below;
    if entries == [] {
      assert Covered(entries) == {};
    } else {
      var init, e := entries[..|entries| - 1], entries[|entries| - 1];
      CoveredSize(init, tokens);
      assert EntryGood(e, tokens);
      ParsedPositions(e);
      NoDuplicatesSize(Positions(e));
      forall x | x in Covered(init) ensures x !in ToSet(Positions(e)) {
        CoveredMembers(init, x);
        var i :| 0 <= i < |init| && x in Positions(init[i]);
        assert x in Positions(entries[i]);
      }
    }
  }

  /** In a good payload every position belongs to an entry. */
  lemma EveryPosition(p: Payload, x: nat)
    requires Good(p) && x < p.tokens
    ensures exists i :: 0 <= i < |p.entries| && x in Positions(p.entries[i])
  {
    hide Positions;
    CoveredSize(p.entries, p.tokens);
    SubsetSize(Covered(p.entries), Below(p.tokens));
    CoveredMembers(p.entries, x);
  }

  // ----- valid payloads are exactly the described ones -----

  /** The word at a position is the term whose list has it. */
  ghost function WordAt(p: Payload, x: nat): string
    requires Good(p) && x < p.tokens
  {
    EveryPosition(p, x);
    var i :| 0 <= i < |p.entries| && x in Positions(p.entries[i]);
    p.entries[i].term
  }

  ghost function WordsOf(p: Payload): (words: Document)
    requires Good(p)
    ensures |words| == p.tokens
  {
    seq(p.tokens, x requires 0 <= x < p.tokens => WordAt(p, x))
  }

  lemma WordsAt(p: Payload, i: nat, x: nat)
    requires Good(p) && i < |p.entries| && x < p.tokens
    ensures WordsOf(p)[x] == p.entries[i].term <==> x in Positions(p.entries[i])
  {
    hide Positions;
    EveryPosition(p, x);
    assert WordsOf(p)[x] == WordAt(p, x);
    var j :| 0 <= j < |p.entries| && x in Positions(p.entries[j]) && p.entries[j].term == WordAt(p, x);
    LessIrreflexive(p.entries[i].term);
    if i != j {
      if i < j {
        assert Less(p.entries[i].term, p.entries[j].term);
      } else {
        assert Less(p.entries[j].term, p.entries[i].term);
      }
    }
  }

  ghost predicate Increasing(a: seq<nat>) {
    forall i, j | 0 <= i < j < |a| :: a[i] < a[j]
  }

  ghost predicate SameMembers(a: seq<nat>, b: seq<nat>) {
    forall x :: x in a <==> x in b
  }

  /** Two increasing lists with the same members are the same list. */
  lemma {:induction false} SameIncreasing(a: seq<nat>, b: seq<nat>)
    requires Increasing(a) && Increasing(b) && SameMembers(a, b)
    ensures a == b
    decreases |a|
  {
    hide Increasing, SameMembers;
    SameEnds(a, b);
    if a != [] {
      var a0, b0 := a[..|a| - 1], b[..|b| - 1];
      SameFronts(a, b);
      SameIncreasing(a0, b0);
      assert a == a0 + [a[|a| - 1]] && b == b0 + [b[|b| - 1]];
    }
  }

  lemma SameEnds(a: seq<nat>, b: seq<nat>)
    requires Increasing(a) && Increasing(b) && SameMembers(a, b)
    ensures a == [] <==> b == []
    ensures a != [] ==> a[|a| - 1] == b[|b| - 1]
  {
    assert a != [] ==> a[|a| - 1] in b;
    assert b != [] ==> b[|b| - 1] in a;
  }

  lemma SameFronts(a: seq<nat>, b: seq<nat>)
    requires Increasing(a) && Increasing(b) && SameMembers(a, b) && a != [] && b != [] && a[|a| - 1] == b[|b| - 1]
    ensures Increasing(a[..|a| - 1]) && Increasing(b[..|b| - 1]) && SameMembers(a[..|a| - 1], b[..|b| - 1])
  {
    hide SameMembers;
    assert SameMembers(a[..|a| - 1], b[..|b| - 1]) by {
      FrontMembers(a, b);
    }
  }

  lemma FrontMembers(a: seq<nat>, b: seq<nat>)
    requires Increasing(a) && Increasing(b) && SameMembers(a, b) && a != [] && b != [] && a[|a| - 1] == b[|b| - 1]
    ensures SameMembers(a[..|a| - 1], b[..|b| - 1])
  {
    hide Increasing;
    var a0, b0 := a[..|a| - 1], b[..|b| - 1];
    forall y ensures y in a0 <==> y in b0 {
      WithoutLast(a, y);
      WithoutLast(b, y);
    }
  }

  lemma WithoutLast(a: seq<nat>, y: nat)
    requires Increasing(a) && a != []
    ensures y in a[..|a| - 1] <==> y in a && y != a[|a| - 1]
  {
    assert a == a[..|a| - 1] + [a[|a| - 1]];
  }

  lemma GoodEntryFor(p: Payload, i: nat)
    requires Good(p) && i < |p.entries|
    ensures EntryFor(WordsOf(p), p.entries[i])
  {
    hide Positions, WordsOf, PositionsOf, Encode, Steps;
    var e, words := p.entries[i], WordsOf(p);
    assert EntryGood(e, p.tokens);
    ParsedPositions(e);
    PositionsMembers(words, e.term);
    StepsIncrease(Positions(e), 0, true);
    forall x ensures x in Positions(e) <==> x in PositionsOf(words, e.term) {
      if 0 <= x < p.tokens {
        WordsAt(p, i, x);
      }
    }
    SameIncreasing(Positions(e), PositionsOf(words, e.term));
    assert Positions(e)[0] in Positions(e);
    WordsAt(p, i, Positions(e)[0]);
  }

  lemma GoodIsDescribed(p: Payload)
    requires Good(p)
    ensures Describes(WordsOf(p), p)
  {
    hide Positions, EntryFor;
    var words := WordsOf(p);
    forall i | 0 <= i < |p.entries| ensures EntryFor(words, p.entries[i]) {
      GoodEntryFor(p, i);
    }
    forall k | 0 <= k < |words| ensures HasEntry(p.entries, words[k]) {
      EveryPosition(p, k);
      var i :| 0 <= i < |p.entries| && k in Positions(p.entries[i]);
      WordsAt(p, i, k);
    }
  }

  lemma DescribedEntry(words: Document, e: Entry)
    requires EntryFor(words, e)
    ensures Parse(e.stream, MAX_TOKENS).Ok? && Positions(e) == PositionsOf(words, e.term)
    ensures EntryGood(e, |words|)
  {
    hide Parse, Encode, PositionsOf, Steps;
    var ps := PositionsOf(words, e.term);
    PositionsMembers(words, e.term);
    PositionsStep(words, e.term);
    EncodedParses(ps, MAX_TOKENS);
    var k :| 0 <= k < |words| && words[k] == e.term;
    assert k in ps;
  }

  lemma DescribedIsGood(words: Document, p: Payload)
    requires Describes(words, p)
    ensures Good(p)
  {
    hide Positions, EntryFor, EntryGood, PositionsOf;
    forall i | 0 <= i < |p.entries| ensures EntryGood(p.entries[i], p.tokens) &&
        Positions(p.entries[i]) == PositionsOf(words, p.entries[i].term) {
      DescribedEntry(words, p.entries[i]);
    }
    forall i, j, x | 0 <= i < j < |p.entries| && x in Positions(p.entries[i]) ensures x !in Positions(p.entries[j]) {
      PositionsMembers(words, p.entries[i].term);
      PositionsMembers(words, p.entries[j].term);
      assert Less(p.entries[i].term, p.entries[j].term);
      LessIrreflexive(p.entries[i].term);
    }
    CoveredSize(p.entries, p.tokens);
    forall x | x in Below(p.tokens) ensures x in Covered(p.entries) {
      assert HasEntry(p.entries, words[x]);
      var i :| 0 <= i < |p.entries| && p.entries[i].term == words[x];
      PositionsMembers(words, words[x]);
      CoveredMembers(p.entries, x);
    }
    assert Covered(p.entries) == Below(p.tokens);
  }

  /** What validation accepts is exactly what some document is stored as. */
  lemma GoodIffDescribed(p: Payload)
    ensures Good(p) <==> exists words :: Describes(words, p)
  {
    hide Good, Describes, WordsOf;
    if Good(p) {
      GoodIsDescribed(p);
    }
    if words :| Describes(words, p) {
      DescribedIsGood(words, p);
    }
  }
}
