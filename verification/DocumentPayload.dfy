/** Preparing, validating and matching stored documents. */
module DocumentPayload {
  import opened Outcomes
  import opened Ordering
  import opened QueryTree
  import opened Oracle
  import opened Varints
  import opened PositionStreams
  import opened InvertedIndex
  import opened PhraseCursors
  import opened StoredDocument
  import IndexSearch

  datatype DocumentError = TooLarge | Invalid

  // ----- validation -----

  ghost predicate Seen(entries: seq<Entry>, ps: seq<nat>, seen: seq<bool>) {
    forall x: nat | x < |seen| :: seen[x] <==> x in Covered(entries) || x in ps
  }

  /** Marks the positions of one entry; fails on one out of range or marked before. */
  method MarkEntry(ghost entries: seq<Entry>, e: Entry, ps: seq<nat>, tokens: nat, seen: array<bool>) returns (ok: bool)
    requires seen.Length == tokens && ps == Positions(e) && Parse(e.stream, MAX_TOKENS).Ok?
    requires Seen(entries, [], seen[..])
    modifies seen
    ensures ok <==> (forall x | x in ps :: x < tokens && x !in Covered(entries))
    ensures ok ==> Seen(entries, ps, seen[..])
  {
    hide Positions, Covered, Parse;
    ParsedPositions(e);
    var k := 0;
    while k < |ps|
      invariant k <= |ps|
      invariant forall j | 0 <= j < k :: ps[j] < tokens && ps[j] !in Covered(entries)
      invariant Seen(entries, ps[..k], seen[..])
    {
      if ps[k] >= tokens {
        assert ps[k] in ps;
        return false;
      }
      if seen[ps[k]] {
        assert ps[k] !in ps[..k];
        assert seen[..][ps[k]];
        assert ps[k] in ps && ps[k] in Covered(entries);
        return false;
      }
      ghost var before := seen[..];
      assert !before[ps[k]];
      seen[ps[k]] := true;
      assert seen[..] == before[ps[k] := true];
      assert ps[..k + 1] == ps[..k] + [ps[k]];
      k := k + 1;
    }
    assert ps[..k] == ps;
    return true;
  }

  lemma CoverMore(entries: seq<Entry>, e: Entry, seen: seq<bool>)
    requires Seen(entries, Positions(e), seen)
    ensures Seen(entries + [e], [], seen)
    ensures Total(entries + [e]) == Total(entries) + |Positions(e)|
  {
    hide Positions;
    assert (entries + [e])[..|entries|] == entries;
  }

  /** The checks passed by the first entries. */
  ghost predicate PrefixGood(entries: seq<Entry>, tokens: nat) {
    && Rising(entries) && Apart(entries)
    && (forall i | 0 <= i < |entries| :: EntryGood(entries[i], tokens))
  }

  lemma PrefixMore(entries: seq<Entry>, e: Entry, tokens: nat)
    requires PrefixGood(entries, tokens) && EntryGood(e, tokens)
    requires entries != [] ==> Less(entries[|entries| - 1].term, e.term)
    requires forall x | x in Positions(e) :: x !in Covered(entries)
    ensures PrefixGood(entries + [e], tokens)
  {
    hide Positions, EntryGood;
    forall i | 0 <= i < |entries| ensures Less(entries[i].term, e.term) {
      if i < |entries| - 1 {
        LessTrans(entries[i].term, entries[|entries| - 1].term, e.term);
      }
    }
    forall i, x | 0 <= i < |entries| && x in Positions(entries[i]) ensures x !in Positions(e) {
      CoveredMembers(entries, x);
    }
  }

  /** Nothing that continues a bad prefix is good. */
  lemma BadPrefix(p: Payload, i: nat)
    requires i < |p.entries|
    requires var e := p.entries[i];
             || !EntryGood(e, p.tokens)
             || (i > 0 && !Less(p.entries[i - 1].term, e.term))
             || (exists x :: x in Positions(e) && x in Covered(p.entries[..i]))
    ensures !Good(p)
  {
    hide Positions, EntryGood;
    var e := p.entries[i];
    if x :| x in Positions(e) && x in Covered(p.entries[..i]) {
      CoveredMembers(p.entries[..i], x);
      var j :| 0 <= j < i && x in Positions(p.entries[..i][j]);
      assert x in Positions(p.entries[j]);
    }
  }

  /** Accepts exactly the payloads that some document is stored as, within the limits. */
  method Validate(p: Payload) returns (r: Result<(nat, nat), DocumentError>)
    ensures r.Ok? <==> exists words :: Stored(words, p)
    ensures r.Ok? ==> r.value == (p.tokens, |p.entries|)
  {
    hide Good, Describes, PrefixGood, Seen, Covered, Total, Positions, Parse, EntryGood;
    GoodIffDescribed(p);
    assert (exists words :: Stored(words, p)) <==>
             PayloadBytes(p) <= MAX_BYTES && exists words :: Describes(words, p) by {
      if words :| Describes(words, p) {
        assert PayloadBytes(p) <= MAX_BYTES ==> Stored(words, p);
      }
    }
    if PayloadBytes(p) > MAX_BYTES {
      return Err(TooLarge);
    }
    if p.tokens > MAX_TOKENS || |p.entries| > p.tokens {
      TooManyTerms(p);
      return Err(Invalid);
    }
    var seen := new bool[p.tokens](_ => false);
    NothingSeen(p, seen[..]);
    var total := 0;
    var i := 0;
    while i < |p.entries|
      invariant i <= |p.entries| && fresh(seen) && seen.Length == p.tokens
      invariant PrefixGood(p.entries[..i], p.tokens) && Seen(p.entries[..i], [], seen[..])
      invariant total == Total(p.entries[..i])
    {
      var e := p.entries[i];
      ghost var prefix := p.entries[..i];
      assert p.entries[..i + 1] == prefix + [e];
      if |e.term| == 0 || |e.term| > MAX_TERM || (i > 0 && !Less(p.entries[i - 1].term, e.term)) {
        NotGoodTerm(p, i);
        return Err(Invalid);
      }
      var ps := ParsePositions(e.stream, MAX_TOKENS);
      if ps.Err? || ps.value == [] {
        NotGoodStream(p, i);
        return Err(Invalid);
      }
      PositionsParsed(e);
      var ok := MarkEntry(prefix, e, ps.value, p.tokens, seen);
      if !ok {
        NotGoodPosition(p, i);
        return Err(Invalid);
      }
      EntryIsGood(e, p.tokens);
      PrefixMore(prefix, e, p.tokens);
      CoverMore(prefix, e, seen[..]);
      total := total + |ps.value|;
      i := i + 1;
    }
    assert p.entries[..i] == p.entries;
    PrefixIsGood(p);
    if total != p.tokens {
      return Err(Invalid);
    }
    return Ok((p.tokens, |p.entries|));
  }

  lemma NothingSeen(p: Payload, seen: seq<bool>)
    requires forall x | 0 <= x < |seen| :: !seen[x]
    ensures PrefixGood(p.entries[..0], p.tokens) && Seen(p.entries[..0], [], seen) && Total(p.entries[..0]) == 0
  {
  }

  lemma PositionsParsed(e: Entry)
    requires Parse(e.stream, MAX_TOKENS).Ok?
    ensures Positions(e) == Parse(e.stream, MAX_TOKENS).value
  {
  }

  lemma EntryIsGood(e: Entry, tokens: nat)
    requires 0 < |e.term| <= MAX_TERM && Parse(e.stream, MAX_TOKENS).Ok? && Positions(e) != []
    requires forall x | x in Positions(e) :: x < tokens
    ensures EntryGood(e, tokens)
  {
  }

  lemma NotGoodTerm(p: Payload, i: nat)
    requires i < |p.entries|
    requires |p.entries[i].term| == 0 || |p.entries[i].term| > MAX_TERM ||
               (i > 0 && !Less(p.entries[i - 1].term, p.entries[i].term))
    ensures !Good(p)
  {
    hide Positions;
  }

  lemma NotGoodStream(p: Payload, i: nat)
    requires i < |p.entries|
    requires Parse(p.entries[i].stream, MAX_TOKENS).Err? || Parse(p.entries[i].stream, MAX_TOKENS).value == []
    ensures !Good(p)
  {
    hide Parse;
    assert !EntryGood(p.entries[i], p.tokens);
  }

  lemma NotGoodPosition(p: Payload, i: nat)
    requires i < |p.entries|
    requires !(forall x | x in Positions(p.entries[i]) :: x < p.tokens && x !in Covered(p.entries[..i]))
    ensures !Good(p)
  {
    hide Positions, Covered, Parse;
    var x :| x in Positions(p.entries[i]) && !(x < p.tokens && x !in Covered(p.entries[..i]));
    if x < p.tokens {
      BadPrefix(p, i);
    } else {
      assert !EntryGood(p.entries[i], p.tokens);
    }
  }

  lemma PrefixIsGood(p: Payload)
    requires PrefixGood(p.entries, p.tokens) && p.tokens <= MAX_TOKENS
    ensures Good(p) <==> Total(p.entries) == p.tokens
  {
  }

  /** Every entry has at least one position. */
  lemma TooManyTerms(p: Payload)
    requires p.tokens > MAX_TOKENS || |p.entries| > p.tokens
    ensures !Good(p)
  {
    hide Positions;
    if Good(p) {
      TotalCounts(p.entries, p.tokens);
    }
  }

  lemma {:induction false} TotalCounts(entries: seq<Entry>, tokens: nat)
    requires forall i | 0 <= i < |entries| :: EntryGood(entries[i], tokens)
    ensures |entries| <= Total(entries)
    decreases |entries|
  {
    hide Positions;
    if entries != [] {
      TotalCounts(entries[..|entries| - 1], tokens);
      assert EntryGood(entries[|entries| - 1], tokens);
    }
  }

  // ----- preparation -----

  /** The positions of one group of sorted postings. */
  method GroupPositions(postings: seq<Posting>, begin: nat, end: nat) returns (ps: seq<nat>)
    requires begin <= end <= |postings|
    ensures |ps| == end - begin && forall k | 0 <= k < |ps| :: ps[k] == postings[begin + k].position
  {
    ps := [];
    var k := begin;
    while k < end
      invariant begin <= k <= end && |ps| == k - begin && forall j | 0 <= j < |ps| ::
                  ps[j] == postings[begin + j].position
    {
      ps := ps + [postings[k].position];
      k := k + 1;
    }
  }

  /** A term's group has exactly the word's positions. */
  lemma GroupIsPositions(words: Document, postings: seq<Posting>, t: Term, ps: seq<nat>)
    requires PostingsOk([Doc(0, 0, words)], postings) && TermOk(postings, t)
    requires |ps| == t.end - t.begin && forall k | 0 <= k < |ps| :: ps[k] == postings[t.begin + k].position
    ensures ps == PositionsOf(words, t.text) && t.text in words
  {
    var docs := [Doc(0, 0, words)];
    PositionsMembers(words, t.text);
    LessIrreflexive(t.text);
    forall i, j | 0 <= i < j < |ps| ensures ps[i] < ps[j] {
      GroupPosting(words, postings, t, i);
      GroupPosting(words, postings, t, j);
      assert Earlier(postings[t.begin + i], postings[t.begin + j]);
    }
    forall x ensures x in ps <==> x in PositionsOf(words, t.text) {
      if x in ps {
        var k :| 0 <= k < |ps| && ps[k] == x;
        GroupPosting(words, postings, t, k);
      }
      if x in PositionsOf(words, t.text) {
        var q := Posting(t.text, 0, x);
        assert InvertedIndex.Occurs(docs, q);
        var k :| 0 <= k < |postings| && postings[k] == q;
        assert ps[k - t.begin] == x;
      }
    }
    SameIncreasing(ps, PositionsOf(words, t.text));
    GroupPosting(words, postings, t, 0);
  }

  lemma GroupPosting(words: Document, postings: seq<Posting>, t: Term, k: nat)
    requires PostingsOk([Doc(0, 0, words)], postings) && TermOk(postings, t) && k < t.end - t.begin
    ensures var q := postings[t.begin + k];
            q.term == t.text && q.document == 0 && q.position < |words| && words[q.position] == t.text
  {
    assert postings[t.begin + k] in postings;
    assert InvertedIndex.Occurs([Doc(0, 0, words)], postings[t.begin + k]);
  }

  ghost predicate EntriesFor(words: Document, terms: seq<Term>, entries: seq<Entry>) {
    && |entries| <= |terms|
    && forall i | 0 <= i < |entries| :: entries[i].term == terms[i].text && EntryFor(words, entries[i])
  }

  lemma EntriesDescribe(words: Document, postings: seq<Posting>, terms: seq<Term>, entries: seq<Entry>)
    requires PostingsOk([Doc(0, 0, words)], postings) && TermsOk(postings, terms) && |words| <= MAX_TOKENS
    requires EntriesFor(words, terms, entries) && |entries| == |terms|
    ensures Describes(words, Payload(|words|, entries))
  {
    hide EntryFor;
    forall k | 0 <= k < |words| ensures HasEntry(entries, words[k]) {
      var q := Posting(words[k], 0, k);
      assert InvertedIndex.Occurs([Doc(0, 0, words)], q);
      var n :| 0 <= n < |postings| && postings[n] == q;
      assert Listed(terms, postings[n].term);
      var i :| 0 <= i < |terms| && terms[i].text == words[k];
      assert entries[i].term == words[k];
    }
  }

  predicate TermFits(term: string) {
    0 < |term| <= MAX_TERM
  }

  lemma StoredTermsFit(words: Document, p: Payload, k: nat)
    requires Describes(words, p) && k < |words|
    ensures TermFits(words[k])
  {
    assert HasEntry(p.entries, words[k]);
    var i :| 0 <= i < |p.entries| && p.entries[i].term == words[k];
    assert EntryFor(words, p.entries[i]);
  }

  lemma NotStored(words: Document, term: string)
    requires term in words && !TermFits(term)
    ensures forall p :: !Stored(words, p)
  {
    var k :| 0 <= k < |words| && words[k] == term;
    forall p ensures !Stored(words, p) {
      if Describes(words, p) {
        StoredTermsFit(words, p, k);
      }
    }
  }

  lemma TooLong(words: Document, q: Payload)
    requires Describes(words, q) && PayloadBytes(q) > MAX_BYTES
    ensures forall p :: !Stored(words, p)
  {
    forall p ensures !Stored(words, p) {
      if Describes(words, p) {
        PayloadOnce(words, p, q);
      }
    }
  }

  /**
   Sorts the tokens by word and position and encodes each group. It succeeds exactly when
   the words have a stored form, and returns that form.
   */
  method Prepare(words: Document) returns (r: Result<Payload, DocumentError>)
    ensures r.Ok? <==> exists p :: Stored(words, p)
    ensures forall p :: Stored(words, p) <==> r == Ok(p)
  {
    hide PostingsOk, TermsOk, Describes, EntryFor, Collected, EncodeU32, Deltas, Steps, PositionsOf, Encode, TermFits;
    if |words| > MAX_TOKENS {
      TooManyWords(words);
      return Err(TooLarge);
    }
    var docs := [Doc(0, 0, words)];
    var collected := CollectPostings(docs);
    SortedPostings(docs, collected);
    var postings := SortBy(NotLater, collected);
    var terms := BuildTerms(docs, postings);
    var entries: seq<Entry> := [];
    var i := 0;
    while i < |terms|
      invariant i <= |terms| && |entries| == i && EntriesFor(words, terms, entries)
    {
      var t := terms[i];
      assert TermOk(postings, t);
      var ps := GroupPositions(postings, t.begin, t.end);
      GroupIsPositions(words, postings, t, ps);
      if !TermFits(t.text) {
        NotStored(words, t.text);
        return Err(TooLarge);
      }
      PositionsStep(words, t.text);
      PositionsBounded(ps);
      var stream := EncodePositions(ps, MAX_TOKENS);
      EncodedEntryFor(words, t.text, ps);
      if stream.Err? {
        return Err(Invalid);
      }
      entries := entries + [Entry(t.text, stream.value)];
      i := i + 1;
    }
    EntriesDescribe(words, postings, terms, entries);
    var p := Payload(|words|, entries);
    if PayloadBytes(p) > MAX_BYTES {
      TooLong(words, p);
      return Err(TooLarge);
    }
    assert Stored(words, p);
    forall q | Stored(words, q) ensures q == p {
      PayloadOnce(words, q, p);
    }
    return Ok(p);
  }

  lemma TooManyWords(words: Document)
    requires |words| > MAX_TOKENS
    ensures forall p :: !Stored(words, p)
  {
  }

  /** A validated payload is the one that preparing its words produces. */
  method ValidateThenPrepare(p: Payload, words: Document)
      returns (valid: Result<(nat, nat), DocumentError>, prepared: Result<Payload, DocumentError>)
    ensures valid.Ok? <==> exists w :: Stored(w, p)
    ensures prepared == Ok(p) <==> Stored(words, p)
    ensures prepared == Ok(p) ==> valid == Ok((|words|, |p.entries|))
  {
    hide Describes;
    valid := Validate(p);
    prepared := Prepare(words);
    if prepared == Ok(p) {
      assert Stored(words, p);
      TokenCount(words, p);
    }
  }

  lemma TokenCount(words: Document, p: Payload)
    requires Describes(words, p)
    ensures p.tokens == |words|
  {
  }

  /**
   Validation accepts exactly what preparation produces: an accepted payload is the one
   payload of one word sequence, and no other words have it.
   */
  lemma AcceptedIsPrepared(p: Payload)
    ensures (exists words :: Stored(words, p)) <==> Good(p) && PayloadBytes(p) <= MAX_BYTES
    ensures Good(p) && PayloadBytes(p) <= MAX_BYTES ==>
              && Stored(WordsOf(p), p)
              && (forall words :: Stored(words, p) ==> words == WordsOf(p))
              && (forall q :: Stored(WordsOf(p), q) ==> q == p)
  {
    hide Describes, Good, WordsOf;
    GoodIffDescribed(p);
    if Good(p) && PayloadBytes(p) <= MAX_BYTES {
      GoodIsDescribed(p);
      assert Stored(WordsOf(p), p);
      forall words | Stored(words, p) ensures words == WordsOf(p) {
        StoredOneToOne(words, p, WordsOf(p), p);
      }
      forall q | Stored(WordsOf(p), q) ensures q == p {
        StoredOneToOne(WordsOf(p), q, WordsOf(p), p);
      }
    }
    if words :| Stored(words, p) {
      DescribedIsGood(words, p);
    }
  }

  lemma PositionsBounded(ps: seq<nat>)
    requires Steps(ps, 0, true)
    ensures forall i | 0 <= i < |ps| :: ps[i] < LIMIT
  {
    StepsIncrease(ps, 0, true);
  }

  lemma EncodedEntryFor(words: Document, term: string, ps: seq<nat>)
    requires ps == PositionsOf(words, term) && term in words && TermFits(term) && |words| <= MAX_TOKENS
    ensures Steps(ps, 0, true) && |ps| <= MAX_TOKENS < LIMIT && EntryFor(words, Entry(term, Encode(ps)))
  {
    PositionsStep(words, term);
  }

  // ----- phrases -----

  /** Each wanted word's list: its positions, or none. */
  ghost predicate ListsFor(words: Document, phrase: seq<string>, lists: Lists) {
    && |lists| == |phrase|
    && forall i | 0 <= i < |phrase| ::
         lists[i] == if phrase[i] in words then Some(PositionsOf(words, phrase[i])) else None
  }

  lemma ListsAnswer(words: Document, phrase: seq<string>, lists: Lists)
    requires ListsFor(words, phrase, lists) && phrase != []
    ensures Somewhere(lists) == LeafHolds(words, Phrase(phrase))
  {
    hide PositionsOf, PhraseAt;
    forall start: nat ensures At(lists, start) == PhraseAt(words, phrase, start) {
      StartAgrees(words, phrase, lists, start);
    }
    if start: nat :| At(lists, start) {
      IndexSearch.PhraseStarts(words, phrase, start);
    }
  }

  lemma StartAgrees(words: Document, phrase: seq<string>, lists: Lists, start: nat)
    requires ListsFor(words, phrase, lists) && phrase != []
    ensures At(lists, start) == PhraseAt(words, phrase, start)
  {
    hide PositionsOf, PhraseAt;
    IndexSearch.PhraseByWords(words, phrase, start);
    forall i | 0 <= i < |phrase|
      ensures PhraseCursors.Occurs(lists, i, start) == IndexSearch.WordAt(words, phrase, start, i)
    {
      PositionsMembers(words, phrase[i]);
    }
  }

  /** What the lists must be after the first `n` entries have been read. */
  ghost predicate ListsSoFar(entries: seq<Entry>, n: nat, phrase: seq<string>, lists: Lists) {
    && |lists| == |phrase| && n <= |entries|
    && (forall i | 0 <= i < |phrase| && lists[i].Some? ::
          exists k :: 0 <= k < n && entries[k].term == phrase[i] && lists[i].value == Positions(entries[k]))
    && (forall i, k | 0 <= i < |phrase| && 0 <= k < n && entries[k].term == phrase[i] :: lists[i].Some?)
  }

  method Assign(entries: seq<Entry>, n: nat, phrase: seq<string>, lists: Lists, ps: seq<nat>) returns (more: Lists)
    requires n < |entries| && ListsSoFar(entries, n, phrase, lists) && ps == Positions(entries[n])
    ensures ListsSoFar(entries, n + 1, phrase, more) && |more| == |phrase|
  {
    hide Positions;
    more := [];
    var i := 0;
    while i < |phrase|
      invariant i <= |phrase| && |more| == i
      invariant forall k | 0 <= k < i :: more[k] == if phrase[k] == entries[n].term then Some(ps) else lists[k]
    {
      more := more + [if phrase[i] == entries[n].term then Some(ps) else lists[i]];
      i := i + 1;
    }
    AssignedSoFar(entries, n, phrase, lists, more);
  }

  lemma AssignedSoFar(entries: seq<Entry>, n: nat, phrase: seq<string>, lists: Lists, more: Lists)
    requires n < |entries| && ListsSoFar(entries, n, phrase, lists) && |more| == |phrase|
    requires forall k | 0 <= k < |phrase| ::
               more[k] == if phrase[k] == entries[n].term then Some(Positions(entries[n])) else lists[k]
    ensures ListsSoFar(entries, n + 1, phrase, more)
  {
    hide Positions;
    forall i | 0 <= i < |phrase| && more[i].Some?
      ensures exists k :: 0 <= k < n + 1 && entries[k].term == phrase[i] && more[i].value == Positions(entries[k])
    {
      if phrase[i] == entries[n].term {
        assert more[i].value == Positions(entries[n]);
      } else {
        var k :| 0 <= k < n && entries[k].term == phrase[i] && lists[i].value == Positions(entries[k]);
        assert more[i].value == Positions(entries[k]);
      }
    }
  }

  lemma SkippedSoFar(entries: seq<Entry>, n: nat, phrase: seq<string>, lists: Lists)
    requires n < |entries| && ListsSoFar(entries, n, phrase, lists) && entries[n].term !in phrase
    ensures ListsSoFar(entries, n + 1, phrase, lists)
  {
    hide Positions;
    forall i | 0 <= i < |phrase| && lists[i].Some?
      ensures exists k :: 0 <= k < n + 1 && entries[k].term == phrase[i] && lists[i].value == Positions(entries[k])
    {
      var k :| 0 <= k < n && entries[k].term == phrase[i] && lists[i].value == Positions(entries[k]);
      assert entries[k].term == phrase[i];
    }
  }

  /** Reading a described document to its end gives each phrase term its positions. */
  lemma AllListsFor(words: Document, p: Payload, phrase: seq<string>, lists: Lists)
    requires Describes(words, p) && ListsSoFar(p.entries, |p.entries|, phrase, lists)
    ensures ListsFor(words, phrase, lists) && ListsOk(lists)
  {
    hide Positions, PositionsOf, EntryFor, Steps;
    forall i | 0 <= i < |phrase|
      ensures lists[i] == if phrase[i] in words then Some(PositionsOf(words, phrase[i])) else None
    {
      if lists[i].Some? {
        var k :| 0 <= k < |p.entries| && p.entries[k].term == phrase[i] && lists[i].value == Positions(p.entries[k]);
        DescribedEntry(words, p.entries[k]);
        InWords(words, p.entries[k]);
      } else {
        forall w | 0 <= w < |words| ensures words[w] != phrase[i] {
          assert HasEntry(p.entries, words[w]);
        }
      }
    }
    forall i | 0 <= i < |lists| && lists[i].Some? ensures Steps(lists[i].value, 0, true) {
      PositionsStep(words, phrase[i]);
    }
  }

  lemma InWords(words: Document, e: Entry)
    requires EntryFor(words, e)
    ensures e.term in words
  {
  }

  /** Validates everything, compares the expected counts, then matches. */
  method PhraseMatches(p: Payload, expectedTokens: nat, expectedTerms: nat, phrase: seq<string>)
      returns (r: Result<bool, DocumentError>)
    ensures r.Ok? <==> && 0 < |phrase| <= MAX_TERMS && p.tokens == expectedTokens && |p.entries| == expectedTerms
                       && exists words :: Stored(words, p)
    ensures forall words | r.Ok? && Stored(words, p) :: r.value == LeafHolds(words, Phrase(phrase))
  {
    hide Describes, ListsSoFar, ListsFor, ListsOk, Positions, Parse, LeafHolds, Somewhere;
    if phrase == [] || |phrase| > MAX_TERMS {
      return Err(TooLarge);
    }
    var valid := Validate(p);
    if valid.Err? {
      return Err(valid.error);
    }
    if valid.value != (expectedTokens, expectedTerms) {
      return Err(Invalid);
    }
    ghost var words :| Stored(words, p);
    var lists: Lists := seq(|phrase|, _ => None);
    NoLists(p.entries, phrase, lists);
    var n := 0;
    while n < |p.entries|
      invariant n <= |p.entries| && ListsSoFar(p.entries, n, phrase, lists)
    {
      EntryParses(words, p, n);
      var ps := ParsePositions(p.entries[n].stream, MAX_TOKENS);
      lists := Assign(p.entries, n, phrase, lists, ps.value);
      n := n + 1;
    }
    AllListsFor(words, p, phrase, lists);
    LengthFor(words, phrase, lists);
    var found := MatchLists(lists);
    ListsAnswer(words, phrase, lists);
    forall other | Stored(other, p) ensures other == words {
      DescribedOnce(p, other, words);
    }
    return Ok(found);
  }

  lemma NoLists(entries: seq<Entry>, phrase: seq<string>, lists: Lists)
    requires |lists| == |phrase| && forall i | 0 <= i < |lists| :: lists[i].None?
    ensures ListsSoFar(entries, 0, phrase, lists)
  {
  }

  lemma LengthFor(words: Document, phrase: seq<string>, lists: Lists)
    requires ListsFor(words, phrase, lists)
    ensures |lists| == |phrase|
  {
  }

  lemma EntryParses(words: Document, p: Payload, n: nat)
    requires Describes(words, p) && n < |p.entries|
    ensures Parse(p.entries[n].stream, MAX_TOKENS).Ok? &&
              Positions(p.entries[n]) == Parse(p.entries[n].stream, MAX_TOKENS).value
    ensures Positions(p.entries[n]) == PositionsOf(words, p.entries[n].term) && p.entries[n].term in words
  {
    assert EntryFor(words, p.entries[n]);
    DescribedEntry(words, p.entries[n]);
  }

  // ----- selected streams only -----

  /** What one entry of a stored document lets a reader see without decoding its deltas. */
  lemma EntryHeader(words: Document, p: Payload, n: nat)
    requires Describes(words, p) && n < |p.entries|
    ensures var e := p.entries[n];
            && 0 < |e.term| <= MAX_TERM && (n > 0 ==> Less(p.entries[n - 1].term, e.term))
            && |e.stream| >= 4
            && 0 < ValueU32(e.stream[..4]) == |Positions(e)| <= |e.stream| - 4 && |Positions(e)| <= p.tokens
            && forall x | x in Positions(e) :: x < p.tokens
  {
    hide EncodeU32, ValueU32, Steps, Deltas, PositionsOf, EntryGood;
    var e := p.entries[n];
    assert EntryFor(words, e);
    DescribedEntry(words, e);
    GoodBasics(e, |words|);
    PositionsStep(words, e.term);
    var ps := PositionsOf(words, e.term);
    U32ReadsBack(|ps|);
    assert e.stream[..4] == EncodeU32(|ps|);
    DeltasAreLong(ps, 0, true);
  }

  lemma GoodBasics(e: Entry, tokens: nat)
    requires EntryGood(e, tokens)
    ensures Positions(e) != [] && forall x | x in Positions(e) :: x < tokens
  {
  }

  method AllBelow(ps: seq<nat>, tokens: nat) returns (ok: bool)
    ensures ok <==> forall x | x in ps :: x < tokens
  {
    var i := 0;
    while i < |ps|
      invariant i <= |ps| && forall k | 0 <= k < i :: ps[k] < tokens
    {
      if ps[i] >= tokens {
        assert ps[i] in ps;
        return false;
      }
      i := i + 1;
    }
    return true;
  }

  /** The position count an entry's stream begins with. */
  function CountOf(e: Entry): nat {
    if |e.stream| < 4 then 0 else ValueU32(e.stream[..4])
  }

  function Counts(entries: seq<Entry>): nat {
    if entries == [] then 0 else Counts(entries[..|entries| - 1]) + CountOf(entries[|entries| - 1])
  }

  /** What can be checked of an entry without decoding its deltas. */
  predicate HeadOk(p: Payload, n: nat)
    requires n < |p.entries|
  {
    var e := p.entries[n];
    && 0 < |e.term| <= MAX_TERM && (n > 0 ==> Less(p.entries[n - 1].term, e.term))
    && |e.stream| >= 4 && 0 < CountOf(e) <= p.tokens && CountOf(e) <= |e.stream| - 4
  }

  /** A wanted entry's stream decodes to positions of the document. */
  ghost predicate WantedOk(p: Payload, n: nat, phrase: seq<string>)
    requires n < |p.entries|
  {
    var e := p.entries[n];
    e.term in phrase ==>
        Parse(e.stream, MAX_TOKENS).Ok? && forall x | x in Parse(e.stream, MAX_TOKENS).value :: x < p.tokens
  }

  /** What the selecting reader accepts. */
  ghost predicate Selectable(p: Payload, phrase: seq<string>) {
    && PayloadBytes(p) <= MAX_BYTES && p.tokens <= MAX_TOKENS && |p.entries| <= p.tokens
    && (forall n | 0 <= n < |p.entries| :: HeadOk(p, n) && WantedOk(p, n, phrase))
    && Counts(p.entries) == p.tokens
  }

  lemma {:induction false} CountsAreTotal(entries: seq<Entry>, n: nat)
    requires n <= |entries| && forall k | 0 <= k < |entries| :: CountOf(entries[k]) == |Positions(entries[k])|
    ensures Counts(entries[..n]) == Total(entries[..n])
    decreases n
  {
    hide Positions, CountOf;
    if n > 0 {
      CountsAreTotal(entries, n - 1);
      assert entries[..n][..n - 1] == entries[..n - 1];
    }
  }

  /** Every stored document is accepted, whatever is wanted of it. */
  lemma StoredSelectable(words: Document, p: Payload, phrase: seq<string>)
    requires Stored(words, p)
    ensures Selectable(p, phrase)
  {
    hide Describes, Positions, Less, ValueU32, Total, Parse;
    DescribedIsGood(words, p);
    GoodTotals(p);
    forall n | 0 <= n < |p.entries|
      ensures HeadOk(p, n) && WantedOk(p, n, phrase) && CountOf(p.entries[n]) == |Positions(p.entries[n])|
    {
      EntryHeader(words, p, n);
      EntryParses(words, p, n);
    }
    CountsAreTotal(p.entries, |p.entries|);
    assert p.entries[..|p.entries|] == p.entries;
  }

  lemma GoodTotals(p: Payload)
    requires Good(p)
    ensures p.tokens <= MAX_TOKENS && |p.entries| <= p.tokens && Total(p.entries) == p.tokens
  {
    hide EntryGood, Positions;
    TotalCounts(p.entries, p.tokens);
  }

  /**
   Decodes only the wanted streams, trusting the counts of the others. It succeeds exactly
   when what it looks at is in order, with the match of the wanted words' own streams; on every
   stored document with the expected counts that is the answer of full validation.
   */
  method SelectedPhraseMatches(p: Payload, expectedTokens: nat, expectedTerms: nat, phrase: seq<string>)
      returns (r: Result<bool, DocumentError>)
    ensures r.Ok? <==>
              0 < |phrase| <= MAX_TERMS && p.tokens == expectedTokens && |p.entries| == expectedTerms &&
              Selectable(p, phrase)
    ensures r.Ok? ==> exists lists :: ListsSoFar(p.entries, |p.entries|, phrase, lists) && r.value == Somewhere(lists)
    ensures forall words | Stored(words, p) && 0 < |phrase| <= MAX_TERMS && p.tokens == expectedTokens &&
              |p.entries| == expectedTerms ::
              r == Ok(LeafHolds(words, Phrase(phrase)))
  {
    hide Describes, ListsSoFar, ListsFor, Positions, Parse, LeafHolds, Somewhere, Steps, HeadOk, CountOf;
    forall words | Stored(words, p) ensures Selectable(p, phrase) {
      StoredSelectable(words, p, phrase);
    }
    if phrase == [] || |phrase| > MAX_TERMS || PayloadBytes(p) > MAX_BYTES {
      return Err(TooLarge);
    }
    if p.tokens != expectedTokens || |p.entries| != expectedTerms || p.tokens > MAX_TOKENS || |p.entries| > p.tokens {
      return Err(Invalid);
    }
    var lists: Lists := seq(|phrase|, _ => None);
    NoLists(p.entries, phrase, lists);
    var total := 0;
    var n := 0;
    while n < |p.entries|
      invariant n <= |p.entries| && ListsSoFar(p.entries, n, phrase, lists) && |lists| == |phrase|
      invariant ListsOk(lists)
      invariant total == Counts(p.entries[..n]) && forall k | 0 <= k < n :: HeadOk(p, k) && WantedOk(p, k, phrase)
    {
      if !HeadOk(p, n) {
        return Err(Invalid);
      }
      assert p.entries[..n + 1][..n] == p.entries[..n];
      total := total + CountOf(p.entries[n]);
      if p.entries[n].term in phrase {
        var ps := ParsePositions(p.entries[n].stream, MAX_TOKENS);
        if ps.Err? {
          assert !WantedOk(p, n, phrase);
          return Err(Invalid);
        }
        PositionsParsed(p.entries[n]);
        ParsedPositions(p.entries[n]);
        var below := AllBelow(ps.value, p.tokens);
        if !below {
          assert !WantedOk(p, n, phrase);
          return Err(Invalid);
        }
        lists := Assign(p.entries, n, phrase, lists, ps.value);
        AssignedOk(p.entries, n + 1, phrase, lists);
      } else {
        SkippedSoFar(p.entries, n, phrase, lists);
      }
      n := n + 1;
    }
    assert p.entries[..n] == p.entries;
    if total != p.tokens {
      return Err(Invalid);
    }
    var found := MatchLists(lists);
    forall words | Describes(words, p) ensures found == LeafHolds(words, Phrase(phrase)) {
      AllListsFor(words, p, phrase, lists);
      ListsAnswer(words, phrase, lists);
    }
    return Ok(found);
  }

  /** Lists taken from parsed entries are increasing. */
  lemma AssignedOk(entries: seq<Entry>, n: nat, phrase: seq<string>, lists: Lists)
    requires ListsSoFar(entries, n, phrase, lists)
    ensures ListsOk(lists)
  {
    hide Positions;
    forall i | 0 <= i < |lists| && lists[i].Some? ensures Steps(lists[i].value, 0, true) {
      var k :| 0 <= k < n && entries[k].term == phrase[i] && lists[i].value == Positions(entries[k]);
      AnyPositions(entries[k]);
    }
  }

  lemma AnyPositions(e: Entry)
    ensures Steps(Positions(e), 0, true)
  {
    hide Parse;
    if Parse(e.stream, MAX_TOKENS).Ok? {
      ParsedPositions(e);
    }
  }
}
