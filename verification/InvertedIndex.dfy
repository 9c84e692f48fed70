/** The reference index: documents by root, postings by term, and a sorted dictionary. */
module InvertedIndex {
  import opened Outcomes
  import opened Ordering
  import opened Oracle

  /** One live document with the relation generation it belongs to. */
  datatype Doc = Doc(relation: nat, root: nat, words: Document)

  datatype Posting = Posting(term: string, document: nat, position: nat)

  /** One dictionary entry: `end` excluded; `frequency` counts documents. */
  datatype Term = Term(text: string, begin: nat, end: nat, frequency: nat)

  datatype Index = Index(documents: seq<Doc>, postings: seq<Posting>, terms: seq<Term>, totalLength: nat)

  datatype IndexLimits = IndexLimits(documents: nat, tokens: nat, terms: nat, termBytes: nat)

  datatype BuildError = DocumentLimit | ForeignRelation | TokenLimit | TermBytesLimit | DuplicateDocument | TermLimit

  // ----- the posting order -----

  predicate Earlier(a: Posting, b: Posting) {
    || Less(a.term, b.term)
    || (a.term == b.term && (a.document < b.document || (a.document == b.document && a.position < b.position)))
  }

  predicate NotLater(a: Posting, b: Posting) {
    a == b || Earlier(a, b)
  }

  lemma EarlierTrans(a: Posting, b: Posting, c: Posting)
    requires Earlier(a, b) && Earlier(b, c)
    ensures Earlier(a, c)
  {
    if Less(a.term, b.term) && Less(b.term, c.term) {
      LessTrans(a.term, b.term, c.term);
    }
  }

  lemma NotLaterIsTotal()
    ensures TotalOrder(NotLater)
  {
    forall a, b ensures NotLater(a, b) || NotLater(b, a) {
      LessTotal(a.term, b.term);
    }
    forall a, b, c | NotLater(a, b) && NotLater(b, c) ensures NotLater(a, c) {
      if a != b && b != c {
        EarlierTrans(a, b, c);
      }
    }
  }

  predicate RootOrder(a: Doc, b: Doc) {
    a.root <= b.root
  }

  // ----- what an index must be -----

  /** Every occurrence of every word, and nothing else. */
  predicate Occurs(documents: seq<Doc>, p: Posting) {
    p.document < |documents| && p.position < |documents[p.document].words| &&
        documents[p.document].words[p.position] == p.term
  }

  ghost predicate PostingsOk(documents: seq<Doc>, postings: seq<Posting>) {
    && (forall p :: p in postings <==> Occurs(documents, p))
    && (forall i, j | 0 <= i < j < |postings| :: Earlier(postings[i], postings[j]))
  }

  predicate TermOk(postings: seq<Posting>, t: Term) {
    && t.begin < t.end <= |postings|
    && (forall k | 0 <= k < |postings| :: postings[k].term == t.text <==> t.begin <= k < t.end)
  }

  ghost predicate TermsOk(postings: seq<Posting>, terms: seq<Term>) {
    && (forall i | 0 <= i < |terms| :: TermOk(postings, terms[i]))
    && (forall i, j | 0 <= i < j < |terms| :: Less(terms[i].text, terms[j].text))
    && (forall k | 0 <= k < |postings| :: Listed(terms, postings[k].term))
  }

  predicate Listed(terms: seq<Term>, text: string) {
    exists i :: 0 <= i < |terms| && terms[i].text == text
  }

  ghost predicate IndexOk(ix: Index) {
    && (forall i, j | 0 <= i < j < |ix.documents| :: ix.documents[i].root < ix.documents[j].root)
    && PostingsOk(ix.documents, ix.postings)
    && TermsOk(ix.postings, ix.terms)
  }

  // ----- collecting postings -----

  /** The postings of documents below `n`, and of the first `m` words of document `n`. */
  ghost predicate Collected(documents: seq<Doc>, n: nat, m: nat, postings: seq<Posting>) {
    && (forall p :: p in postings <==> Occurs(documents, p) && (p.document < n || (p.document == n && p.position < m)))
    && (forall i, j | 0 <= i < j < |postings| :: postings[i] != postings[j])
  }

  lemma CollectOne(documents: seq<Doc>, n: nat, m: nat, postings: seq<Posting>)
    requires n < |documents| && m < |documents[n].words| && Collected(documents, n, m, postings)
    ensures Collected(documents, n, m + 1, postings + [Posting(documents[n].words[m], n, m)])
  {
    var p := Posting(documents[n].words[m], n, m);
    assert p !in postings;
    var more := postings + [p];
    forall i, j | 0 <= i < j < |more| ensures more[i] != more[j] {
      if j == |postings| {
        assert more[i] in postings;
      }
    }
  }

  lemma CollectNext(documents: seq<Doc>, n: nat, postings: seq<Posting>)
    requires n < |documents| && Collected(documents, n, |documents[n].words|, postings)
    ensures Collected(documents, n + 1, 0, postings)
  {
  }

  method CollectPostings(documents: seq<Doc>) returns (postings: seq<Posting>)
    ensures Collected(documents, |documents|, 0, postings)
  {
    hide Collected;
    postings := [];
    NothingCollected(documents);
    var n := 0;
    while n < |documents|
      invariant n <= |documents| && Collected(documents, n, 0, postings)
    {
      var m := 0;
      while m < |documents[n].words|
        invariant m <= |documents[n].words| && Collected(documents, n, m, postings)
      {
        CollectOne(documents, n, m, postings);
        postings := postings + [Posting(documents[n].words[m], n, m)];
        m := m + 1;
      }
      CollectNext(documents, n, postings);
      n := n + 1;
    }
  }

  lemma NothingCollected(documents: seq<Doc>)
    ensures Collected(documents, 0, 0, [])
  {
  }

  lemma SortedPostings(documents: seq<Doc>, postings: seq<Posting>)
    requires Collected(documents, |documents|, 0, postings)
    ensures PostingsOk(documents, SortBy(NotLater, postings))
  {
    NotLaterIsTotal();
    SortKeeps(NotLater, postings);
    var sorted := SortBy(NotLater, postings);
    forall p ensures p in sorted <==> Occurs(documents, p) {
      assert p in sorted <==> p in multiset(sorted);
      assert p in postings <==> p in multiset(postings);
    }
    forall i, j | 0 <= i < j < |sorted| ensures Earlier(sorted[i], sorted[j]) {
      assert NotLater(sorted[i], sorted[j]);
      if sorted[i] == sorted[j] {
        TwiceInMultiset(sorted, i, j);
        OnceInMultiset(postings, sorted[i]);
        assert false;
      }
    }
  }

  lemma TwiceInMultiset<T>(s: seq<T>, i: nat, j: nat)
    requires i < j < |s| && s[i] == s[j]
    ensures multiset(s)[s[i]] >= 2
  {
    assert s == s[..j] + [s[j]] + s[j + 1..];
    assert s[i] in s[..j];
  }

  lemma {:induction false} OnceInMultiset<T>(s: seq<T>, x: T)
    requires forall i, j | 0 <= i < j < |s| :: s[i] != s[j]
    ensures multiset(s)[x] <= 1
    decreases |s|
  {
    if s != [] {
      var init := s[..|s| - 1];
      OnceInMultiset(init, x);
      assert s == init + [s[|s| - 1]];
      if x == s[|s| - 1] {
        assert x !in init;
      }
    }
  }

  // ----- the dictionary -----

  lemma SameTermBetween(documents: seq<Doc>, postings: seq<Posting>, i: nat, k: nat, j: nat)
    requires PostingsOk(documents, postings) && i <= k <= j < |postings| && postings[i].term == postings[j].term
    ensures postings[k].term == postings[i].term
  {
    if i < k < j {
      assert Earlier(postings[i], postings[k]) && Earlier(postings[k], postings[j]);
      if postings[k].term != postings[i].term {
        assert Less(postings[i].term, postings[k].term) && Less(postings[k].term, postings[j].term);
        LessTrans(postings[i].term, postings[k].term, postings[j].term);
        LessIrreflexive(postings[i].term);
      }
    }
  }

  /** How many documents the postings from `begin` to `end` belong to. */
  function Frequency(postings: seq<Posting>, begin: nat, end: nat): nat
    requires begin < end <= |postings|
    decreases end
  {
    if end == begin + 1 then 1
    else Frequency(postings, begin, end - 1) + if postings[end - 2].document != postings[end - 1].document then 1 else 0
  }

  /** The entries of the first `n` postings, which end at a change of term. */
  ghost predicate Entries(postings: seq<Posting>, n: nat, terms: seq<Term>) {
    && n <= |postings|
    && (forall i | 0 <= i < |terms| ::
          TermOk(postings, terms[i]) && terms[i].end <= n
          && terms[i].frequency == Frequency(postings, terms[i].begin, terms[i].end))
    && (forall i, j | 0 <= i < j < |terms| :: Less(terms[i].text, terms[j].text))
    && (forall k | 0 <= k < n :: Listed(terms, postings[k].term))
    && (forall k, l | 0 <= k < n <= l < |postings| :: postings[k].term != postings[l].term)
  }

  /** The postings from `begin` share a term up to `end`, where the next one differs. */
  ghost predicate Run(postings: seq<Posting>, begin: nat, end: nat) {
    && begin < end <= |postings|
    && (forall k | begin <= k < end :: postings[k].term == postings[begin].term)
    && (end < |postings| ==> postings[end].term != postings[begin].term)
  }

  lemma RunIsTerm(documents: seq<Doc>, postings: seq<Posting>, n: nat, terms: seq<Term>, end: nat)
    requires PostingsOk(documents, postings) && Entries(postings, n, terms) && Run(postings, n, end)
    ensures forall k | 0 <= k < |postings| :: postings[k].term == postings[n].term <==> n <= k < end
  {
    forall k | 0 <= k < |postings| ensures postings[k].term == postings[n].term <==> n <= k < end {
      if k >= end && postings[k].term == postings[n].term {
        SameTermBetween(documents, postings, n, end, k);
      }
    }
  }

  lemma AddListed(postings: seq<Posting>, n: nat, terms: seq<Term>, end: nat, entry: Term)
    requires Run(postings, n, end) && entry.text == postings[n].term
    requires forall k | 0 <= k < n :: Listed(terms, postings[k].term)
    ensures forall k | 0 <= k < end :: Listed(terms + [entry], postings[k].term)
  {
    var more := terms + [entry];
    forall k | 0 <= k < end ensures Listed(more, postings[k].term) {
      if k < n {
        var i :| 0 <= i < |terms| && terms[i].text == postings[k].term;
        assert more[i].text == postings[k].term;
      } else {
        assert more[|terms|].text == postings[k].term;
      }
    }
  }

  lemma AddEntry(documents: seq<Doc>, postings: seq<Posting>, n: nat, terms: seq<Term>, end: nat)
    requires PostingsOk(documents, postings) && Entries(postings, n, terms) && Run(postings, n, end)
    ensures Entries(postings, end, terms + [Term(postings[n].term, n, end, Frequency(postings, n, end))])
  {
    hide PostingsOk, Listed, Less, TermOk, Frequency;
    RunIsTerm(documents, postings, n, terms, end);
    var entry := Term(postings[n].term, n, end, Frequency(postings, n, end));
    EntryOk(postings, n, end);
    forall i | 0 <= i < |terms| ensures Less(terms[i].text, entry.text) {
      EntryBelow(documents, postings, n, terms[i]);
    }
    AddListed(postings, n, terms, end, entry);
    forall k, l | 0 <= k < end <= l < |postings| ensures postings[k].term != postings[l].term {
      assert k >= n ==> postings[k].term == postings[n].term;
      assert postings[l].term != postings[n].term;
    }
  }

  lemma EntryOk(postings: seq<Posting>, n: nat, end: nat)
    requires n < end <= |postings|
    requires forall k | 0 <= k < |postings| :: postings[k].term == postings[n].term <==> n <= k < end
    ensures TermOk(postings, Term(postings[n].term, n, end, Frequency(postings, n, end)))
  {
  }

  lemma EntryBelow(documents: seq<Doc>, postings: seq<Posting>, n: nat, t: Term)
    requires PostingsOk(documents, postings) && TermOk(postings, t) && t.end <= n < |postings|
    ensures Less(t.text, postings[n].term)
  {
    assert postings[t.begin].term == t.text;
    assert Earlier(postings[t.begin], postings[n]);
    assert postings[n].term != t.text;
  }

  method BuildTerms(ghost documents: seq<Doc>, postings: seq<Posting>) returns (terms: seq<Term>)
    requires PostingsOk(documents, postings)
    ensures TermsOk(postings, terms)
    ensures forall i | 0 <= i < |terms| ::
              TermOk(postings, terms[i]) && terms[i].frequency == Frequency(postings, terms[i].begin, terms[i].end)
  {
    hide PostingsOk;
    terms := [];
    var begin := 0;
    while begin < |postings|
      invariant Entries(postings, begin, terms)
    {
      hide Entries;
      var text := postings[begin].term;
      var end := begin + 1;
      var frequency := 1;
      while end < |postings| && postings[end].term == text
        invariant begin < end <= |postings|
        invariant forall k | begin <= k < end :: postings[k].term == text
        invariant frequency == Frequency(postings, begin, end)
      {
        if postings[end - 1].document != postings[end].document {
          frequency := frequency + 1;
        }
        end := end + 1;
      }
      AddEntry(documents, postings, begin, terms, end);
      terms := terms + [Term(text, begin, end, frequency)];
      begin := end;
    }
  }

  /** The documents the postings from `begin` to `end` belong to. */
  function DocumentsIn(postings: seq<Posting>, begin: nat, end: nat): set<nat>
    requires begin <= end <= |postings|
  {
    set k | begin <= k < end :: postings[k].document
  }

  /** The documents with a given word. */
  function Containing(documents: seq<Doc>, text: string): set<nat> {
    set d | 0 <= d < |documents| && text in documents[d].words
  }

  lemma DocumentsNext(postings: seq<Posting>, begin: nat, end: nat)
    requires begin < end <= |postings|
    ensures DocumentsIn(postings, begin, end) == DocumentsIn(postings, begin, end - 1) + {postings[end - 1].document}
  {
  }

  lemma NotThere(postings: seq<Posting>, begin: nat, end: nat, d: nat)
    requires begin <= end <= |postings| && forall k | begin <= k < end :: postings[k].document < d
    ensures d !in DocumentsIn(postings, begin, end)
  {
  }

  lemma {:induction false} FrequencyCounts(documents: seq<Doc>, postings: seq<Posting>, begin: nat, end: nat)
    requires PostingsOk(documents, postings) && begin < end <= |postings|
    requires forall k | begin <= k < end :: postings[k].term == postings[begin].term
    ensures Frequency(postings, begin, end) == |DocumentsIn(postings, begin, end)|
    decreases end
  {
    hide PostingsOk;
    var last := postings[end - 1].document;
    DocumentsNext(postings, begin, end);
    if end == begin + 1 {
      assert DocumentsIn(postings, begin, begin) == {};
    } else {
      hide DocumentsIn;
      FrequencyCounts(documents, postings, begin, end - 1);
      var before := DocumentsIn(postings, begin, end - 1);
      DocumentsNext(postings, begin, end - 1);
      if postings[end - 2].document == last {
        assert before + {last} == before;
      } else {
        NewDocument(documents, postings, begin, end);
        NotThere(postings, begin, end - 1, last);
      }
    }
  }

  /** Within one term, a posting of another document than the one before starts a new document. */
  lemma NewDocument(documents: seq<Doc>, postings: seq<Posting>, begin: nat, end: nat)
    requires begin + 1 < end <= |postings|
    requires forall k | begin <= k < end :: postings[k].term == postings[begin].term
    requires postings[end - 2].document != postings[end - 1].document
    requires PostingsOk(documents, postings)
    ensures forall k | begin <= k < end - 1 :: postings[k].document < postings[end - 1].document
  {
    LessIrreflexive(postings[begin].term);
    forall k | begin <= k < end - 1 ensures postings[k].document < postings[end - 1].document {
      assert Earlier(postings[end - 2], postings[end - 1]);
      assert k < end - 2 ==> Earlier(postings[k], postings[end - 2]);
    }
  }

  /** An entry's frequency is the number of documents with its word. */
  lemma FrequencyIsDocuments(documents: seq<Doc>, postings: seq<Posting>, t: Term)
    requires PostingsOk(documents, postings) && TermOk(postings, t)
    ensures Frequency(postings, t.begin, t.end) == |Containing(documents, t.text)|
  {
    assert postings[t.begin].term == t.text;
    FrequencyCounts(documents, postings, t.begin, t.end);
    forall d: nat ensures d in DocumentsIn(postings, t.begin, t.end) <==> d in Containing(documents, t.text) {
      if d in DocumentsIn(postings, t.begin, t.end) {
        var k :| t.begin <= k < t.end && postings[k].document == d;
        assert postings[k] in postings;
        assert Occurs(documents, postings[k]);
      }
      if d in Containing(documents, t.text) {
        var m :| 0 <= m < |documents[d].words| && documents[d].words[m] == t.text;
        var p := Posting(t.text, d, m);
        assert Occurs(documents, p);
        var k :| 0 <= k < |postings| && postings[k] == p;
      }
    }
    assert DocumentsIn(postings, t.begin, t.end) == Containing(documents, t.text);
  }

  // ----- building -----

  /** Two documents share a root. */
  predicate Repeated(documents: seq<Doc>) {
    exists i, j :: 0 <= i < j < |documents| && documents[i].root == documents[j].root
  }

  /** Neighbours with one root, in a sequence ordered by root. */
  method RepeatedRoot(ordered: seq<Doc>) returns (repeated: bool)
    requires SortedBy(RootOrder, ordered)
    ensures repeated <==> Repeated(ordered)
  {
    var i := 1;
    while i < |ordered|
      invariant 1 <= i && (|ordered| >= 1 ==> i <= |ordered|)
      invariant forall k, l | 0 <= k < l < i && l < |ordered| :: ordered[k].root < ordered[l].root
    {
      if ordered[i - 1].root == ordered[i].root {
        return true;
      }
      assert RootOrder(ordered[i - 1], ordered[i]);
      i := i + 1;
    }
    return false;
  }

  // ----- limits -----

  function TotalWords(documents: seq<Doc>): nat {
    if documents == [] then 0 else TotalWords(documents[..|documents| - 1]) + |documents[|documents| - 1].words|
  }

  predicate LongWord(words: Document, limit: nat) {
    exists k :: 0 <= k < |words| && |words[k]| > limit
  }

  predicate Foreign(relation: nat, documents: seq<Doc>) {
    exists i :: 0 <= i < |documents| && documents[i].relation != relation
  }

  predicate HasLongWord(documents: seq<Doc>, limit: nat) {
    exists i :: 0 <= i < |documents| && LongWord(documents[i].words, limit)
  }

  /** The distinct words of all documents. */
  function Vocabulary(documents: seq<Doc>): set<string> {
    set d, w | d in documents && w in d.words :: w
  }

  /** The check that an error stands for fails. */
  ghost predicate Violates(relation: nat, documents: seq<Doc>, limits: IndexLimits, error: BuildError) {
    match error
    case DocumentLimit => |documents| > limits.documents || |documents| >= 0x1_0000_0000
    case ForeignRelation => Foreign(relation, documents)
    case TokenLimit => TotalWords(documents) > limits.tokens
    case TermBytesLimit => HasLongWord(documents, limits.termBytes)
    case DuplicateDocument => Repeated(documents)
    case TermLimit => |Vocabulary(documents)| > limits.terms
  }

  lemma {:induction false} TotalGrows(documents: seq<Doc>, n: nat)
    requires n <= |documents|
    ensures TotalWords(documents[..n]) <= TotalWords(documents)
    decreases |documents| - n
  {
    if n < |documents| {
      TotalGrows(documents, n + 1);
      assert documents[..n + 1][..n] == documents[..n];
    } else {
      assert documents[..n] == documents;
    }
  }

  /** Visits the documents in order and stops at the first that breaks a limit. */
  method CheckDocuments(relation: nat, documents: seq<Doc>, limits: IndexLimits) returns (r: Result<nat, BuildError>)
    ensures r.Ok? <==>
              !Foreign(relation, documents) && TotalWords(documents) <= limits.tokens &&
              !HasLongWord(documents, limits.termBytes)
    ensures r.Ok? ==> r.value == TotalWords(documents)
    ensures r.Err? ==>
              (r.error.ForeignRelation? || r.error.TokenLimit? || r.error.TermBytesLimit?) &&
              Violates(relation, documents, limits, r.error)
  {
    hide LongWord;
    var total := 0;
    for n := 0 to |documents|
      invariant total == TotalWords(documents[..n]) && total <= limits.tokens
      invariant forall i | 0 <= i < n :: documents[i].relation == relation &&
                  !LongWord(documents[i].words, limits.termBytes)
    {
      if documents[n].relation != relation {
        return Err(ForeignRelation);
      }
      assert documents[..n + 1][..n] == documents[..n];
      total := total + |documents[n].words|;
      if total > limits.tokens {
        TotalGrows(documents, n + 1);
        return Err(TokenLimit);
      }
      var long := FindLong(documents[n].words, limits.termBytes);
      if long {
        return Err(TermBytesLimit);
      }
    }
    assert documents[..|documents|] == documents;
    r := Ok(total);
  }

  method FindLong(words: Document, limit: nat) returns (found: bool)
    ensures found <==> LongWord(words, limit)
  {
    for k := 0 to |words|
      invariant forall i | 0 <= i < k :: |words[i]| <= limit
    {
      if |words[k]| > limit {
        return true;
      }
    }
    found := false;
  }

  function TermsUpTo(postings: seq<Posting>, n: nat): set<string>
    requires n <= |postings|
  {
    set k | 0 <= k < n :: postings[k].term
  }

  /** Counts the changes of term in sorted postings: the distinct words. */
  method CountDistinct(ghost documents: seq<Doc>, postings: seq<Posting>) returns (distinct: nat)
    requires PostingsOk(documents, postings)
    ensures distinct == |Vocabulary(documents)|
  {
    hide PostingsOk;
    distinct := 0;
    var n := 0;
    while n < |postings|
      invariant n <= |postings| && distinct == |TermsUpTo(postings, n)|
    {
      ghost var before := TermsUpTo(postings, n);
      assert TermsUpTo(postings, n + 1) == before + {postings[n].term};
      if n == 0 || postings[n - 1].term != postings[n].term {
        if n > 0 {
          NewTerm(documents, postings, n);
        }
        assert postings[n].term !in before;
        distinct := distinct + 1;
      } else {
        assert postings[n - 1].term in before;
        assert before + {postings[n].term} == before;
      }
      n := n + 1;
    }
    TermsAreVocabulary(documents, postings);
  }

  lemma NewTerm(documents: seq<Doc>, postings: seq<Posting>, n: nat)
    requires PostingsOk(documents, postings) && 0 < n < |postings| && postings[n - 1].term != postings[n].term
    ensures forall k | 0 <= k < n :: postings[k].term != postings[n].term
  {
    forall k | 0 <= k < n ensures postings[k].term != postings[n].term {
      if postings[k].term == postings[n].term {
        SameTermBetween(documents, postings, k, n - 1, n);
      }
    }
  }

  lemma TermsAreVocabulary(documents: seq<Doc>, postings: seq<Posting>)
    requires PostingsOk(documents, postings)
    ensures TermsUpTo(postings, |postings|) == Vocabulary(documents)
  {
    forall w | w in TermsUpTo(postings, |postings|) ensures w in Vocabulary(documents) {
      var k :| 0 <= k < |postings| && postings[k].term == w;
      assert postings[k] in postings;
      assert Occurs(documents, postings[k]);
      var d := documents[postings[k].document];
      assert d in documents && d.words[postings[k].position] in d.words;
    }
    forall w | w in Vocabulary(documents) ensures w in TermsUpTo(postings, |postings|) {
      var d :| d in documents && w in d.words;
      var i :| 0 <= i < |documents| && documents[i] == d;
      var m :| 0 <= m < |d.words| && d.words[m] == w;
      assert Occurs(documents, Posting(w, i, m));
      var k :| 0 <= k < |postings| && postings[k] == Posting(w, i, m);
    }
  }

  lemma SameVocabulary(a: seq<Doc>, b: seq<Doc>)
    requires multiset(a) == multiset(b)
    ensures Vocabulary(a) == Vocabulary(b)
  {
    assert forall d :: d in a <==> d in multiset(a);
    assert forall d :: d in b <==> d in multiset(b);
  }

  /**
   Fails exactly when a limit is exceeded, a document is foreign or a root is repeated, and
   names a check that fails; otherwise the documents are the given ones by root.
   */
  method Build(relation: nat, documents: seq<Doc>, limits: IndexLimits) returns (r: Result<Index, BuildError>)
    ensures r.Err? <==> exists error :: Violates(relation, documents, limits, error)
    ensures r.Err? ==> Violates(relation, documents, limits, r.error)
    ensures r.Ok? ==>
              IndexOk(r.value) && multiset(r.value.documents) == multiset(documents) &&
              r.value.totalLength == TotalWords(documents)
    ensures r.Ok? ==> forall i | 0 <= i < |r.value.terms| ::
                        r.value.terms[i].frequency == |Containing(r.value.documents, r.value.terms[i].text)|
  {
    hide Collected, PostingsOk, TermOk, Frequency, Containing, SortBy, SortedBy, Foreign, HasLongWord, Repeated,
        Vocabulary;
    if |documents| > limits.documents || |documents| >= 0x1_0000_0000 {
      assert Violates(relation, documents, limits, DocumentLimit);
      return Err(DocumentLimit);
    }
    var total := CheckDocuments(relation, documents, limits);
    if total.Err? {
      assert Violates(relation, documents, limits, total.error);
      return Err(total.error);
    }
    var ordered := SortBy(RootOrder, documents);
    RootsOrdered(documents);
    var repeated := RepeatedRoot(ordered);
    RepeatedEither(ordered, documents);
    if repeated {
      assert Violates(relation, documents, limits, DuplicateDocument);
      return Err(DuplicateDocument);
    }
    var postings := CollectPostings(ordered);
    SortedPostings(ordered, postings);
    var sorted := SortBy(NotLater, postings);
    var distinct := CountDistinct(ordered, sorted);
    SameVocabulary(ordered, documents);
    if distinct > limits.terms {
      assert Violates(relation, documents, limits, TermLimit);
      return Err(TermLimit);
    }
    var terms := BuildTerms(ordered, sorted);
    forall i | 0 <= i < |terms| ensures terms[i].frequency == |Containing(ordered, terms[i].text)| {
      FrequencyIsDocuments(ordered, sorted, terms[i]);
    }
    r := Ok(Index(ordered, sorted, terms, total.value));
    Built(ordered, sorted, terms, total.value);
  }

  lemma Built(ordered: seq<Doc>, sorted: seq<Posting>, terms: seq<Term>, total: nat)
    requires SortedBy(RootOrder, ordered) && !Repeated(ordered) && PostingsOk(ordered, sorted) && TermsOk(sorted, terms)
    ensures IndexOk(Index(ordered, sorted, terms, total))
  {
    hide PostingsOk, TermsOk;
    forall i, j | 0 <= i < j < |ordered| ensures ordered[i].root < ordered[j].root {
      assert RootOrder(ordered[i], ordered[j]);
    }
  }

  lemma RootsOrdered(documents: seq<Doc>)
    ensures SortedBy(RootOrder, SortBy(RootOrder, documents))
    ensures multiset(SortBy(RootOrder, documents)) == multiset(documents)
  {
    SortKeeps(RootOrder, documents);
  }

  /** Two entries with one root on one side give two on the other. */
  lemma SameRootTwice(a: seq<Doc>, b: seq<Doc>, i: nat, j: nat)
    requires multiset(a) == multiset(b) && i < j < |a| && a[i].root == a[j].root
    ensures exists k, l :: 0 <= k < l < |b| && b[k].root == b[l].root
  {
    if a[i] == a[j] {
      TwiceInMultiset(a, i, j);
      if forall k, l | 0 <= k < l < |b| :: b[k] != b[l] {
        OnceInMultiset(b, a[i]);
        assert false;
      }
    } else {
      assert a[i] in multiset(a) && a[j] in multiset(a);
      assert a[i] in b && a[j] in b;
      var k :| 0 <= k < |b| && b[k] == a[i];
      var l :| 0 <= l < |b| && b[l] == a[j];
      assert k < l || l < k;
    }
  }

  lemma RepeatedEither(a: seq<Doc>, b: seq<Doc>)
    requires multiset(a) == multiset(b)
    ensures Repeated(a) <==> Repeated(b)
  {
    if i, j :| 0 <= i < j < |a| && a[i].root == a[j].root {
      SameRootTwice(a, b, i, j);
    }
    if i, j :| 0 <= i < j < |b| && b[i].root == b[j].root {
      SameRootTwice(b, a, i, j);
    }
  }
}
