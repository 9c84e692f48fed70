/** Search over the inverted index, and its agreement with the document-at-a-time oracle. */
module IndexSearch {
  import opened FiniteSets
  import opened Outcomes
  import opened QueryTree
  import opened Oracle
  import opened Ordering
  import opened InvertedIndex

  // ----- the dictionary -----

  lemma TermsPartition(ix: Index, text: string)
    requires IndexOk(ix)
    ensures Partitioned(ix.terms, (t: Term) => Less(t.text, text))
  {
    forall i, j | 0 <= i < j < |ix.terms| && Less(ix.terms[j].text, text) ensures Less(ix.terms[i].text, text) {
      LessTrans(ix.terms[i].text, ix.terms[j].text, text);
    }
  }

  method Lookup(ix: Index, text: string) returns (r: Option<nat>)
    requires IndexOk(ix)
    ensures r.Some? ==> r.value < |ix.terms| && ix.terms[r.value].text == text
    ensures r.None? ==> !Listed(ix.terms, text)
  {
    TermsPartition(ix, text);
    var begin := LowerBound(ix.terms, (t: Term) => Less(t.text, text));
    LessIrreflexive(text);
    if begin < |ix.terms| && ix.terms[begin].text == text {
      return Some(begin);
    }
    forall i | 0 <= i < |ix.terms| ensures ix.terms[i].text != text {
      assert i > begin ==> Less(ix.terms[begin].text, ix.terms[i].text);
    }
    return None;
  }

  lemma PrefixPartition(ix: Index, prefix: string, begin: nat)
    requires IndexOk(ix) && begin <= |ix.terms|
    requires forall i | 0 <= i < |ix.terms| :: Less(ix.terms[i].text, prefix) <==> i < begin
    ensures Partitioned(ix.terms[begin..], (t: Term) => prefix <= t.text)
  {
    var rest := ix.terms[begin..];
    forall i, j | 0 <= i < j < |rest| && prefix <= rest[j].text ensures prefix <= rest[i].text {
      assert rest[i] == ix.terms[begin + i] && rest[j] == ix.terms[begin + j];
      PrefixInterval(prefix, rest[i].text, rest[j].text);
    }
  }

  /** The words with a prefix are one interval of the dictionary. */
  method PrefixRange(ix: Index, prefix: string) returns (begin: nat, end: nat)
    requires IndexOk(ix)
    ensures begin <= end <= |ix.terms|
    ensures forall i | 0 <= i < |ix.terms| :: prefix <= ix.terms[i].text <==> begin <= i < end
  {
    TermsPartition(ix, prefix);
    begin := LowerBound(ix.terms, (t: Term) => Less(t.text, prefix));
    PrefixPartition(ix, prefix, begin);
    var count := LowerBound(ix.terms[begin..], (t: Term) => prefix <= t.text);
    end := begin + count;
    forall i | 0 <= i < |ix.terms| ensures prefix <= ix.terms[i].text <==> begin <= i < end {
      if i < begin {
        if prefix <= ix.terms[i].text {
          PrefixNotAbove(prefix, ix.terms[i].text);
        }
      } else {
        assert ix.terms[begin..][i - begin] == ix.terms[i];
      }
    }
  }

  // ----- the postings of one document -----

  ghost predicate RangeOf(ix: Index, text: string, d: nat, begin: nat, end: nat) {
    && begin <= end <= |ix.postings|
    && forall k | 0 <= k < |ix.postings| :: ix.postings[k].term == text && ix.postings[k].document == d <==>
         begin <= k < end
  }

  lemma DocumentsPartition(ix: Index, t: Term, d: nat)
    requires IndexOk(ix) && t in ix.terms
    ensures TermOk(ix.postings, t)
    ensures Partitioned(ix.postings[t.begin..t.end], (p: Posting) => p.document < d)
  {
    LessIrreflexive(t.text);
    var part := ix.postings[t.begin..t.end];
    forall i, j | 0 <= i < j < |part| && part[j].document < d ensures part[i].document < d {
      assert Earlier(ix.postings[t.begin + i], ix.postings[t.begin + j]);
    }
  }

  lemma DocumentPartition(ix: Index, t: Term, d: nat, low: nat)
    requires IndexOk(ix) && TermOk(ix.postings, t) && t.begin <= low <= t.end
    requires forall k | low <= k < t.end :: ix.postings[k].document >= d
    ensures Partitioned(ix.postings[low..t.end], (p: Posting) => p.document == d)
  {
    LessIrreflexive(t.text);
    var part := ix.postings[low..t.end];
    forall i, j | 0 <= i < j < |part| && part[j].document == d ensures part[i].document == d {
      assert Earlier(ix.postings[low + i], ix.postings[low + j]);
    }
  }

  method DocumentPostings(ix: Index, term: nat, d: nat) returns (begin: nat, end: nat)
    requires IndexOk(ix) && term < |ix.terms|
    ensures RangeOf(ix, ix.terms[term].text, d, begin, end)
  {
    hide IndexOk;
    var t := ix.terms[term];
    DocumentsPartition(ix, t, d);
    var low := LowerBound(ix.postings[t.begin..t.end], (p: Posting) => p.document < d);
    begin := t.begin + low;
    forall k | t.begin <= k < t.end ensures ix.postings[k].document < d <==> k < begin {
      assert ix.postings[t.begin..t.end][k - t.begin] == ix.postings[k];
    }
    DocumentPartition(ix, t, d, begin);
    var count := LowerBound(ix.postings[begin..t.end], (p: Posting) => p.document == d);
    end := begin + count;
    forall k | begin <= k < t.end ensures ix.postings[k].document == d <==> k < end {
      assert ix.postings[begin..t.end][k - begin] == ix.postings[k];
    }
  }

  /** A position of a word in a document is a posting of its range, and conversely. */
  lemma RangePositions(ix: Index, text: string, d: nat, begin: nat, end: nat, position: nat)
    requires IndexOk(ix) && RangeOf(ix, text, d, begin, end) && d < |ix.documents|
    ensures (exists k :: begin <= k < end && ix.postings[k].position == position)
              <==> position < |ix.documents[d].words| && ix.documents[d].words[position] == text
  {
    if k :| begin <= k < end && ix.postings[k].position == position {
      assert ix.postings[k] in ix.postings;
      assert Occurs(ix.documents, ix.postings[k]);
    }
    if position < |ix.documents[d].words| && ix.documents[d].words[position] == text {
      var p := Posting(text, d, position);
      assert Occurs(ix.documents, p);
      var k :| 0 <= k < |ix.postings| && ix.postings[k] == p;
      assert begin <= k < end;
    }
  }

  lemma RangeNonempty(ix: Index, text: string, d: nat, begin: nat, end: nat)
    requires IndexOk(ix) && RangeOf(ix, text, d, begin, end) && d < |ix.documents|
    ensures begin < end <==> text in ix.documents[d].words
  {
    if begin < end {
      RangePositions(ix, text, d, begin, end, ix.postings[begin].position);
    }
    if text in ix.documents[d].words {
      var m :| 0 <= m < |ix.documents[d].words| && ix.documents[d].words[m] == text;
      RangePositions(ix, text, d, begin, end, m);
    }
  }

  lemma UnlistedIsAbsent(ix: Index, text: string, d: nat)
    requires IndexOk(ix) && !Listed(ix.terms, text) && d < |ix.documents|
    ensures text !in ix.documents[d].words
  {
    var words := ix.documents[d].words;
    forall m | 0 <= m < |words| ensures words[m] != text {
      var p := Posting(words[m], d, m);
      assert Occurs(ix.documents, p);
      var k :| 0 <= k < |ix.postings| && ix.postings[k] == p;
      assert Listed(ix.terms, ix.postings[k].term);
    }
  }

  method HasPosition(ix: Index, ghost text: string, ghost d: nat, begin: nat, end: nat, position: nat) returns (r: bool)
    requires IndexOk(ix) && RangeOf(ix, text, d, begin, end)
    ensures r <==> exists k :: begin <= k < end && ix.postings[k].position == position
  {
    var part := ix.postings[begin..end];
    PositionsPartition(ix, text, d, begin, end, position);
    var at := LowerBound(part, (p: Posting) => p.position < position);
    r := at < |part| && part[at].position == position;
    if r {
      assert ix.postings[begin + at].position == position;
    } else {
      forall k | begin <= k < end ensures ix.postings[k].position != position {
        assert part[k - begin] == ix.postings[k];
        PositionsRise(ix, text, d, begin, end);
      }
    }
  }

  lemma PositionsRise(ix: Index, text: string, d: nat, begin: nat, end: nat)
    requires IndexOk(ix) && RangeOf(ix, text, d, begin, end)
    ensures forall i, j | begin <= i < j < end :: ix.postings[i].position < ix.postings[j].position
  {
    LessIrreflexive(text);
    forall i, j | begin <= i < j < end ensures ix.postings[i].position < ix.postings[j].position {
      assert Earlier(ix.postings[i], ix.postings[j]);
    }
  }

  lemma PositionsPartition(ix: Index, text: string, d: nat, begin: nat, end: nat, position: nat)
    requires IndexOk(ix) && RangeOf(ix, text, d, begin, end)
    ensures Partitioned(ix.postings[begin..end], (p: Posting) => p.position < position)
  {
    PositionsRise(ix, text, d, begin, end);
    var part := ix.postings[begin..end];
    forall i, j | 0 <= i < j < |part| && part[j].position < position ensures part[i].position < position {
      assert ix.postings[begin + i].position < ix.postings[begin + j].position;
    }
  }

  // ----- phrases -----

  /** The dictionary entry of each phrase term, if it has one. */
  ghost predicate Bound(ix: Index, terms: seq<string>, slots: seq<Option<nat>>) {
    && |slots| == |terms|
    && (forall q | 0 <= q < |terms| :: SlotOk(ix, terms[q], slots[q]))
  }

  ghost predicate SlotOk(ix: Index, text: string, slot: Option<nat>) {
    && (slot.Some? ==> slot.value < |ix.terms| && ix.terms[slot.value].text == text)
    && (slot.None? ==> !Listed(ix.terms, text))
  }

  ghost predicate RangesOk(ix: Index, terms: seq<string>, d: nat, ranges: seq<(nat, nat)>, n: nat) {
    && n <= |terms| && n <= |ranges|
    && (forall q | 0 <= q < n :: RangeOf(ix, terms[q], d, ranges[q].0, ranges[q].1) && ranges[q].0 < ranges[q].1)
  }

  /** The word `q` after `start` is the phrase's `q`-th term. */
  ghost predicate WordAt(words: Document, terms: seq<string>, start: nat, q: nat) {
    q < |terms| && start + q < |words| && words[start + q] == terms[q]
  }

  lemma PhraseByWords(words: Document, terms: seq<string>, start: nat)
    requires terms != []
    ensures PhraseAt(words, terms, start) == forall q | 0 <= q < |terms| :: WordAt(words, terms, start, q)
  {
    if forall q | 0 <= q < |terms| :: WordAt(words, terms, start, q) {
      assert WordAt(words, terms, start, |terms| - 1);
      forall q | 0 <= q < |terms| ensures words[start..start + |terms|][q] == terms[q] {
        assert WordAt(words, terms, start, q);
      }
      assert words[start..start + |terms|] == terms;
    }
    if PhraseAt(words, terms, start) {
      forall q | 0 <= q < |terms| ensures WordAt(words, terms, start, q) {
        assert words[start..start + |terms|][q] == words[start + q];
      }
    }
  }

  /** A missing term rules the phrase out. */
  lemma NoPhrase(words: Document, terms: seq<string>, q: nat)
    requires q < |terms| && terms[q] !in words
    ensures !LeafHolds(words, Phrase(terms))
  {
    forall start: nat | start < |words| ensures !PhraseAt(words, terms, start) {
      PhraseByWords(words, terms, start);
      assert !WordAt(words, terms, start, q);
    }
  }

  /** Collects the ranges of all terms; the anchor has the shortest. None when a term is absent. */
  method PhraseRanges(ix: Index, ghost terms: seq<string>, slots: seq<Option<nat>>, ranges: array<(nat, nat)>, d: nat)
      returns (anchor: Option<nat>)
    requires IndexOk(ix) && Bound(ix, terms, slots) && d < |ix.documents| && |slots| <= ranges.Length && terms != []
    modifies ranges
    ensures anchor.None? ==> !LeafHolds(ix.documents[d].words, Phrase(terms))
    ensures anchor.Some? ==> anchor.value < |terms| && RangesOk(ix, terms, d, ranges[..], |terms|)
  {
    hide IndexOk, RangeOf, LeafHolds;
    var best := 0;
    var q := 0;
    while q < |slots|
      invariant q <= |slots| && best < |terms| && (best < q || best == 0)
      invariant RangesOk(ix, terms, d, ranges[..], q)
    {
      assert SlotOk(ix, terms[q], slots[q]);
      if slots[q].None? {
        UnlistedIsAbsent(ix, terms[q], d);
        NoPhrase(ix.documents[d].words, terms, q);
        return None;
      }
      var begin, end := DocumentPostings(ix, slots[q].value, d);
      RangeNonempty(ix, terms[q], d, begin, end);
      ghost var before := ranges[..];
      ranges[q] := (begin, end);
      assert forall k | 0 <= k < q :: ranges[..][k] == before[k];
      if begin >= end {
        NoPhrase(ix.documents[d].words, terms, q);
        return None;
      }
      if end - begin < ranges[best].1 - ranges[best].0 {
        best := q;
      }
      q := q + 1;
    }
    return Some(best);
  }

  /** Probes every other term of the phrase at the start that one anchor posting implies. */
  method ProbeStart(ix: Index, ghost terms: seq<string>, ranges: array<(nat, nat)>, n: nat, anchor: nat, ghost d: nat,
      start: nat) returns (r: bool)
    requires IndexOk(ix) && d < |ix.documents| && n == |terms| <= ranges.Length && anchor < n
    requires RangesOk(ix, terms, d, ranges[..], n)
    requires start + anchor < |ix.documents[d].words| && ix.documents[d].words[start + anchor] == terms[anchor]
    ensures r == PhraseAt(ix.documents[d].words, terms, start)
  {
    hide IndexOk, RangeOf, PhraseAt;
    ghost var words := ix.documents[d].words;
    PhraseByWords(words, terms, start);
    var q := 0;
    while q < n
      invariant q <= n
      invariant forall k | 0 <= k < q :: WordAt(words, terms, start, k)
    {
      if q != anchor {
        assert ranges[..][q] == ranges[q];
        RangePositions(ix, terms[q], d, ranges[q].0, ranges[q].1, start + q);
        var has := HasPosition(ix, terms[q], d, ranges[q].0, ranges[q].1, start + q);
        if !has {
          assert !WordAt(words, terms, start, q);
          return false;
        }
      }
      q := q + 1;
    }
    return true;
  }

  /** Walks the anchor's postings only. */
  method MatchPhrase(ix: Index, ghost terms: seq<string>, slots: seq<Option<nat>>, ranges: array<(nat, nat)>, d: nat)
      returns (r: bool)
    requires IndexOk(ix) && Bound(ix, terms, slots) && d < |ix.documents| && |slots| <= ranges.Length && terms != []
    modifies ranges
    ensures r == LeafHolds(ix.documents[d].words, Phrase(terms))
  {
    hide IndexOk, RangeOf, PhraseAt;
    ghost var words := ix.documents[d].words;
    var found := PhraseRanges(ix, terms, slots, ranges, d);
    if found.None? {
      return false;
    }
    var anchor := found.value;
    assert ranges[..][anchor] == ranges[anchor];
    var begin, end := ranges[anchor].0, ranges[anchor].1;
    RangeShape(ix, terms[anchor], d, begin, end);
    var k := begin;
    while k < end
      invariant begin <= k <= end && RangesOk(ix, terms, d, ranges[..], |terms|)
      invariant forall start: nat, j | begin <= j < k && ix.postings[j].position == start + anchor ::
                  !PhraseAt(words, terms, start)
    {
      var position := ix.postings[k].position;
      RangePositions(ix, terms[anchor], d, begin, end, position);
      if position >= anchor {
        var hit := ProbeStart(ix, terms, ranges, |slots|, anchor, d, position - anchor);
        if hit {
          PhraseStarts(words, terms, position - anchor);
          return true;
        }
      }
      k := k + 1;
    }
    forall start: nat ensures !PhraseAt(words, terms, start) {
      PhraseByWords(words, terms, start);
      RangePositions(ix, terms[anchor], d, begin, end, start + anchor);
      assert PhraseAt(words, terms, start) ==> WordAt(words, terms, start, anchor);
    }
    return false;
  }

  lemma RangeShape(ix: Index, text: string, d: nat, begin: nat, end: nat)
    requires RangeOf(ix, text, d, begin, end)
    ensures begin <= end <= |ix.postings|
  {
  }

  lemma PhraseStarts(words: Document, terms: seq<string>, start: nat)
    requires PhraseAt(words, terms, start)
    ensures start < |words| && LeafHolds(words, Phrase(terms))
  {
  }

  // ----- prefixes -----

  /** A document has a word with the prefix exactly when some entry of the interval occurs in it. */
  lemma PrefixHolds(ix: Index, prefix: string, begin: nat, end: nat, d: nat)
    requires IndexOk(ix) && d < |ix.documents| && begin <= end <= |ix.terms|
    requires forall i | 0 <= i < |ix.terms| :: prefix <= ix.terms[i].text <==> begin <= i < end
    ensures LeafHolds(ix.documents[d].words, Prefix(prefix))
              == exists i :: begin <= i < end && ix.terms[i].text in ix.documents[d].words
  {
    var words := ix.documents[d].words;
    if i :| begin <= i < end && ix.terms[i].text in words {
      var m :| 0 <= m < |words| && words[m] == ix.terms[i].text;
      assert prefix <= words[m];
    }
    if LeafHolds(words, Prefix(prefix)) {
      var m :| 0 <= m < |words| && prefix <= words[m];
      if !Listed(ix.terms, words[m]) {
        UnlistedIsAbsent(ix, words[m], d);
      }
      var i :| 0 <= i < |ix.terms| && ix.terms[i].text == words[m];
      assert ix.terms[i].text in words;
    }
  }

  method MatchPrefix(ix: Index, ghost prefix: string, begin: nat, end: nat, d: nat) returns (r: bool)
    requires IndexOk(ix) && d < |ix.documents| && begin <= end <= |ix.terms|
    requires forall i | 0 <= i < |ix.terms| :: prefix <= ix.terms[i].text <==> begin <= i < end
    ensures r == LeafHolds(ix.documents[d].words, Prefix(prefix))
  {
    hide IndexOk, LeafHolds, RangeOf;
    PrefixHolds(ix, prefix, begin, end, d);
    var i := begin;
    while i < end
      invariant begin <= i <= end
      invariant forall k | begin <= k < i :: ix.terms[k].text !in ix.documents[d].words
    {
      var low, high := DocumentPostings(ix, i, d);
      RangeNonempty(ix, ix.terms[i].text, d, low, high);
      if low < high {
        return true;
      }
      i := i + 1;
    }
    return false;
  }

  // ----- binding a query to the index -----

  datatype BoundNode =
    | Never
    | BoundTerm(slot: Option<nat>)
    | BoundPrefix(begin: nat, end: nat)
    | BoundPhrase(slots: seq<Option<nat>>)
    | BoundNot(child: nat)
    | BoundAnd(left: nat, right: nat)
    | BoundOr(left: nat, right: nat)

  ghost predicate Binds(ix: Index, node: Node, b: BoundNode) {
    match node
    case LitNode(Nothing) => b.Never?
    case LitNode(Word(text)) => b.BoundTerm? && SlotOk(ix, text, b.slot)
    case LitNode(Prefix(prefix)) =>
      && b.BoundPrefix? && b.begin <= b.end <= |ix.terms|
      && (forall i | 0 <= i < |ix.terms| :: prefix <= ix.terms[i].text <==> b.begin <= i < b.end)
    case LitNode(Phrase(terms)) => b.BoundPhrase? && Bound(ix, terms, b.slots)
    case NotNode(c) => b == BoundNot(c)
    case AndNode(l, r) => b == BoundAnd(l, r)
    case OrNode(l, r) => b == BoundOr(l, r)
  }

  method BindPhrase(ix: Index, terms: seq<string>) returns (slots: seq<Option<nat>>)
    requires IndexOk(ix)
    ensures Bound(ix, terms, slots)
  {
    hide IndexOk;
    slots := [];
    var q := 0;
    while q < |terms|
      invariant q <= |terms| && |slots| == q && forall k | 0 <= k < q :: SlotOk(ix, terms[k], slots[k])
    {
      var slot := Lookup(ix, terms[q]);
      slots := slots + [slot];
      q := q + 1;
    }
  }

  method BindNode(ix: Index, node: Node) returns (b: BoundNode)
    requires IndexOk(ix)
    ensures Binds(ix, node, b)
  {
    hide IndexOk;
    match node
    case LitNode(leaf) =>
      match leaf {
        case Nothing =>
          b := Never;
        case Word(text) =>
          var slot := Lookup(ix, text);
          b := BoundTerm(slot);
        case Prefix(prefix) =>
          var begin, end := PrefixRange(ix, prefix);
          b := BoundPrefix(begin, end);
        case Phrase(terms) =>
          var slots := BindPhrase(ix, terms);
          b := BoundPhrase(slots);
      }
    case NotNode(c) => b := BoundNot(c);
    case AndNode(l, r) => b := BoundAnd(l, r);
    case OrNode(l, r) => b := BoundOr(l, r);
  }

  function PhraseWidth(node: Node): nat {
    if node.LitNode? && node.leaf.Phrase? then |node.leaf.terms| else 0
  }

  datatype SearchError = PrefixExpansion

  /** The distinct words of the documents that start with a prefix. */
  function WithPrefix(documents: seq<Doc>, prefix: string): set<string> {
    set w | w in Vocabulary(documents) && prefix <= w
  }

  function NodeExpansion(documents: seq<Doc>, node: Node): nat {
    if node.LitNode? && node.leaf.Prefix? then |WithPrefix(documents, node.leaf.prefix)| else 0
  }

  /** How many words the prefixes of a query stand for. */
  function Expansion(documents: seq<Doc>, nodes: seq<Node>): nat {
    if nodes == [] then 0
    else Expansion(documents, nodes[..|nodes| - 1]) + NodeExpansion(documents, nodes[|nodes| - 1])
  }

  lemma {:induction false} ExpansionGrows(documents: seq<Doc>, nodes: seq<Node>, n: nat)
    requires n <= |nodes|
    ensures Expansion(documents, nodes[..n]) <= Expansion(documents, nodes)
    decreases |nodes| - n
  {
    if n < |nodes| {
      ExpansionGrows(documents, nodes, n + 1);
      assert nodes[..n + 1][..n] == nodes[..n];
    } else {
      assert nodes[..n] == nodes;
    }
  }

  /** A dictionary entry's word is in the vocabulary, and conversely. */
  lemma ListedIsVocabulary(ix: Index, w: string)
    requires IndexOk(ix)
    ensures Listed(ix.terms, w) <==> w in Vocabulary(ix.documents)
  {
    TermsAreVocabulary(ix.documents, ix.postings);
    if Listed(ix.terms, w) {
      var i :| 0 <= i < |ix.terms| && ix.terms[i].text == w;
      assert TermOk(ix.postings, ix.terms[i]) && ix.postings[ix.terms[i].begin].term == w;
    }
  }

  function Texts(terms: seq<Term>, begin: nat, end: nat): (r: seq<string>)
    requires begin <= end <= |terms|
    ensures |r| == end - begin && forall i | 0 <= i < |r| :: r[i] == terms[begin + i].text
  {
    seq(end - begin, i requires 0 <= i < end - begin => terms[begin + i].text)
  }

  lemma TextsDiffer(ix: Index, begin: nat, end: nat)
    requires begin <= end <= |ix.terms| && IndexOk(ix)
    ensures NoDuplicates(Texts(ix.terms, begin, end))
  {
    hide PostingsOk, TermOk, Less;
    var texts := Texts(ix.terms, begin, end);
    forall i, j | 0 <= i < j < |texts| ensures texts[i] != texts[j] {
      assert Less(ix.terms[begin + i].text, ix.terms[begin + j].text);
      LessIrreflexive(texts[i]);
    }
  }

  lemma TextsWithPrefix(ix: Index, prefix: string, begin: nat, end: nat, w: string)
    requires begin <= end <= |ix.terms| && IndexOk(ix)
    requires forall i | 0 <= i < |ix.terms| :: prefix <= ix.terms[i].text <==> begin <= i < end
    ensures w in ToSet(Texts(ix.terms, begin, end)) <==> w in WithPrefix(ix.documents, prefix)
  {
    hide IndexOk, Vocabulary;
    ListedIsVocabulary(ix, w);
    var texts := Texts(ix.terms, begin, end);
    if w in texts {
      var i :| 0 <= i < |texts| && texts[i] == w;
      assert ix.terms[begin + i].text == w;
    }
    if w in WithPrefix(ix.documents, prefix) {
      var i :| 0 <= i < |ix.terms| && ix.terms[i].text == w;
      assert texts[i - begin] == w;
    }
  }

  /** The interval of a prefix has one entry for each word that starts with it. */
  lemma IntervalSize(ix: Index, prefix: string, begin: nat, end: nat)
    requires IndexOk(ix) && begin <= end <= |ix.terms|
    requires forall i | 0 <= i < |ix.terms| :: prefix <= ix.terms[i].text <==> begin <= i < end
    ensures |WithPrefix(ix.documents, prefix)| == end - begin
  {
    hide IndexOk, WithPrefix, Texts, NoDuplicates, ToSet;
    var texts := Texts(ix.terms, begin, end);
    TextsDiffer(ix, begin, end);
    NoDuplicatesSize(texts);
    forall w ensures w in ToSet(texts) <==> w in WithPrefix(ix.documents, prefix) {
      TextsWithPrefix(ix, prefix, begin, end, w);
    }
    assert ToSet(texts) == WithPrefix(ix.documents, prefix);
  }

  /** Binds every node once; fails exactly when the prefixes stand for more words than allowed. */
  method BindAll(ix: Index, nodes: seq<Node>, limit: nat) returns (r: Result<seq<BoundNode>, SearchError>, longest: nat)
    requires IndexOk(ix)
    ensures r.Ok? <==> Expansion(ix.documents, nodes) <= limit
    ensures r.Ok? ==>
              |r.value| == |nodes| && forall i | 0 <= i < |nodes| ::
              Binds(ix, nodes[i], r.value[i]) && PhraseWidth(nodes[i]) <= longest
  {
    hide IndexOk, Binds, WithPrefix;
    var bounds: seq<BoundNode> := [];
    longest := 0;
    var expanded := 0;
    var i := 0;
    while i < |nodes|
      invariant i <= |nodes| && |bounds| == i && expanded == Expansion(ix.documents, nodes[..i]) <= limit
      invariant forall k | 0 <= k < i :: Binds(ix, nodes[k], bounds[k]) && PhraseWidth(nodes[k]) <= longest
    {
      var b := BindNode(ix, nodes[i]);
      assert nodes[..i + 1][..i] == nodes[..i];
      BoundWidth(ix, nodes[i], b);
      if b.BoundPrefix? {
        expanded := expanded + (b.end - b.begin);
        if expanded > limit {
          ExpansionGrows(ix.documents, nodes, i + 1);
          return Err(PrefixExpansion), longest;
        }
      }
      bounds := bounds + [b];
      longest := Max(longest, PhraseWidth(nodes[i]));
      i := i + 1;
    }
    assert nodes[..i] == nodes;
    r := Ok(bounds);
  }

  /** A bound prefix is as wide as its node's expansion; nothing else expands. */
  lemma BoundWidth(ix: Index, node: Node, b: BoundNode)
    requires IndexOk(ix) && Binds(ix, node, b)
    ensures b.BoundPrefix? ==> b.begin <= b.end
    ensures NodeExpansion(ix.documents, node) == if b.BoundPrefix? then b.end - b.begin else 0
  {
    hide IndexOk, WithPrefix;
    if b.BoundPrefix? {
      IntervalSize(ix, node.leaf.prefix, b.begin, b.end);
    }
  }

  // ----- one document -----

  /** Parsed phrases have at least one term. */
  ghost predicate PhrasesNonempty(nodes: seq<Node>) {
    forall i | 0 <= i < |nodes| && nodes[i].LitNode? && nodes[i].leaf.Phrase? :: nodes[i].leaf.terms != []
  }

  method MatchLeaf(ix: Index, ghost leaf: Leaf, b: BoundNode, ranges: array<(nat, nat)>, d: nat) returns (r: bool)
    requires IndexOk(ix) && d < |ix.documents| && Binds(ix, LitNode(leaf), b)
    requires PhraseWidth(LitNode(leaf)) <= ranges.Length && (leaf.Phrase? ==> leaf.terms != [])
    modifies ranges
    ensures r == LeafHolds(ix.documents[d].words, leaf)
  {
    hide IndexOk, RangeOf, PhraseAt;
    match b
    case BoundTerm(slot) =>
      if slot.None? {
        UnlistedIsAbsent(ix, leaf.term, d);
        return false;
      }
      var low, high := DocumentPostings(ix, slot.value, d);
      RangeNonempty(ix, leaf.term, d, low, high);
      return low < high;
    case BoundPrefix(begin, end) =>
      r := MatchPrefix(ix, leaf.prefix, begin, end, d);
    case BoundPhrase(slots) =>
      r := MatchPhrase(ix, leaf.terms, slots, ranges, d);
    case _ =>
      r := false;
  }

  /** Fills the value scratch bottom-up for one document; old scratch contents do not matter. */
  method MatchOrdinal(ix: Index, nodes: seq<Node>, bounds: seq<BoundNode>, values: array<bool>,
      ranges: array<(nat, nat)>, root: nat, d: nat)
    returns (r: bool)
    requires IndexOk(ix) && d < |ix.documents| && Ordered(nodes) && PhrasesNonempty(nodes) && root < |nodes|
    requires |bounds| == |nodes| == values.Length
    requires forall i | 0 <= i < |nodes| :: Binds(ix, nodes[i], bounds[i]) && PhraseWidth(nodes[i]) <= ranges.Length
    modifies values, ranges
    ensures r == NodeValue(ix.documents[d].words, nodes, root)
  {
    hide IndexOk, LeafHolds;
    ghost var words := ix.documents[d].words;
    var i := 0;
    while i < |nodes|
      invariant i <= |nodes|
      invariant forall k | 0 <= k < i :: values[k] == NodeValue(words, nodes, k)
    {
      ValueAt(words, nodes, i);
      assert Binds(ix, nodes[i], bounds[i]);
      var value;
      match bounds[i] {
        case BoundNot(c) =>
          value := !values[c];
        case BoundAnd(l, r) =>
          value := values[l] && values[r];
        case BoundOr(l, r) =>
          value := values[l] || values[r];
        case _ =>
          assert PhraseWidth(nodes[i]) <= ranges.Length;
          value := MatchLeaf(ix, nodes[i].leaf, bounds[i], ranges, d);
      }
      values[i] := value;
      i := i + 1;
    }
    return values[root];
  }

  // ----- the whole search -----

  ghost predicate Found(documents: seq<Doc>, e: Expr, n: nat, ordinals: seq<nat>) {
    && (forall d: nat :: d in ordinals <==> d < n && d < |documents| && Matches(documents[d].words, e))
    && (forall i, j | 0 <= i < j < |ordinals| :: ordinals[i] < ordinals[j])
  }

  /** A search under way: the bound query, its scratch and the next document to look at. */
  class Cursor {
    const ix: Index
    const nodes: seq<Node>
    const bounds: seq<BoundNode>
    const values: array<bool>
    const ranges: array<(nat, nat)>
    ghost const query: Expr
    var next: nat

    ghost predicate Valid()
      reads this
    {
      && next <= |ix.documents| && IndexOk(ix)
      && nodes == Flatten(query, 0) && nodes != [] && PhrasesNonempty(nodes) && |bounds| == |nodes| == values.Length
      && (forall i | 0 <= i < |nodes| :: Binds(ix, nodes[i], bounds[i]) && PhraseWidth(nodes[i]) <= ranges.Length)
    }

    constructor (ix: Index, nodes: seq<Node>, bounds: seq<BoundNode>, longest: nat, ghost query: Expr)
      requires IndexOk(ix) && nodes == Flatten(query, 0) && nodes != [] && PhrasesNonempty(nodes) && |bounds| == |nodes|
      requires forall i | 0 <= i < |nodes| :: Binds(ix, nodes[i], bounds[i]) && PhraseWidth(nodes[i]) <= longest
      ensures Valid() && fresh(values) && fresh(ranges) && this.ix == ix && this.query == query && next == 0
    {
      this.ix, this.nodes, this.bounds, this.query := ix, nodes, bounds, query;
      values := new bool[|nodes|];
      ranges := new (nat, nat)[longest](_ => (0, 0));
      next := 0;
    }

    /** The next document the oracle accepts, or none when there is no other. */
    method Next() returns (r: Option<nat>)
      requires Valid()
      modifies this, values, ranges
      ensures Valid() && old(next) <= next
      ensures r.Some? ==> r.value + 1 == next && old(next) <= r.value && Matches(ix.documents[r.value].words, query)
      ensures r.None? ==> next == |ix.documents|
      ensures forall d | old(next) <= d < next && Some(d) != r :: !Matches(ix.documents[d].words, query)
    {
      hide IndexOk, Flatten, Matches, NodeValue, Binds;
      FlattenIsOrdered(query);
      while next < |ix.documents|
        invariant Valid() && old(next) <= next
        invariant forall d | old(next) <= d < next :: !Matches(ix.documents[d].words, query)
      {
        var d := next;
        next := next + 1;
        var hit := MatchOrdinal(ix, nodes, bounds, values, ranges, |nodes| - 1, d);
        WholeValue(ix.documents[d].words, nodes, query);
        if hit {
          return Some(d);
        }
      }
      r := None;
    }
  }

  /**
   Binds the query and takes every candidate: exactly the documents the oracle accepts, in
   ascending order. It fails exactly when the prefixes expand beyond the limit.
   */
  method Search(ix: Index, nodes: seq<Node>, ghost e: Expr, limit: nat) returns (r: Result<seq<nat>, SearchError>)
    requires IndexOk(ix) && nodes == Flatten(e, 0) && PhrasesNonempty(nodes)
    ensures r.Ok? <==> Expansion(ix.documents, nodes) <= limit
    ensures r.Ok? ==> Found(ix.documents, e, |ix.documents|, r.value)
  {
    hide IndexOk, Flatten, Matches, Binds, Expansion;
    var bounds, longest := BindAll(ix, nodes, limit);
    if bounds.Err? {
      return Err(bounds.error);
    }
    FlattenNonempty(e);
    var cursor := new Cursor(ix, nodes, bounds.value, longest, e);
    var ordinals: seq<nat> := [];
    while true
      invariant cursor.Valid() && cursor.ix == ix && cursor.query == e && fresh(cursor) && fresh(cursor.values) &&
                  fresh(cursor.ranges)
      invariant Found(ix.documents, e, cursor.next, ordinals)
      decreases |ix.documents| - cursor.next
    {
      ghost var from := cursor.next;
      var candidate := cursor.Next();
      FoundMore(ix.documents, e, from, cursor.next, candidate, ordinals);
      if candidate.None? {
        return Ok(ordinals);
      }
      ordinals := ordinals + [candidate.value];
    }
  }

  lemma FlattenNonempty(e: Expr)
    ensures Flatten(e, 0) != []
  {
  }

  /** What was found grows by the one match among the documents looked at. */
  lemma FoundMore(documents: seq<Doc>, e: Expr, from: nat, next: nat, candidate: Option<nat>, ordinals: seq<nat>)
    requires from <= next <= |documents| && Found(documents, e, from, ordinals)
    requires candidate.Some? ==>
               from <= candidate.value && candidate.value + 1 == next && Matches(documents[candidate.value].words, e)
    requires forall d | from <= d < next && Some(d) != candidate :: !Matches(documents[d].words, e)
    ensures Found(documents, e, next, if candidate.Some? then ordinals + [candidate.value] else ordinals)
  {
    hide Matches;
    forall i | 0 <= i < |ordinals| ensures ordinals[i] < from {
      assert ordinals[i] in ordinals;
    }
  }

  lemma WholeValue(words: Document, nodes: seq<Node>, e: Expr)
    requires nodes == Flatten(e, 0) && Ordered(nodes)
    ensures NodeValue(words, nodes, |nodes| - 1) == Matches(words, e)
  {
    hide Flatten, Matches, NodeValue;
    assert nodes[0..0 + |nodes|] == nodes;
    FlattenValue(words, nodes, e, 0);
  }

  /** Ascending ordinals are ascending roots. */
  lemma AscendingRoots(ix: Index, e: Expr, ordinals: seq<nat>, i: nat, j: nat)
    requires IndexOk(ix) && Found(ix.documents, e, |ix.documents|, ordinals) && i < j < |ordinals|
    ensures ordinals[i] < |ix.documents| && ordinals[j] < |ix.documents|
    ensures ix.documents[ordinals[i]].root < ix.documents[ordinals[j]].root
  {
    assert ordinals[i] in ordinals && ordinals[j] in ordinals;
  }
}
