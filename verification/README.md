# PIN verification model

PIN is a full-text index for PostgreSQL. Its storage-independent engine keeps many fast or
crash-safe forms that must agree with simple ones: posting chains rewritten through atomic
page batches, bitmap segment groups, a hand-written query parser, an inverted index, streaming
rechecks, block-indexed positions, and two protocols between concurrent backends. This project
models that behaviour in Dafny and proves the agreements.

`dafny verify dfyconfig.toml` checks the whole project.

## What is modelled

* **Posting compaction** (`PostingPages`, `PostingSteps`, `CompactionFacts`, `CompactionRuns`,
  `CompactionAccounts`, `PagePacking`, `Compaction`). A relation is a sequence of pages. `Good` is the durable invariant: every
  posting page is on exactly one chain, every chain is acyclic, terminal and ordered. The host
  can fail any call; `patience` is the number of calls that still succeed, so a contract that
  holds for every `patience` covers a crash between any two commits. The three modes, recovery,
  any number of crashed attempts, and a repeated run are covered. What each mode keeps, what it
  writes and reuses, and every reported number are determined, and the written pages are the
  fewest that can hold the live references.
* **Segment groups** (`GroupedQuery`, `GroupedMembers`, `GroupedMerge`, `RankBitmap`,
  `GroupFiles`, `GroupOpening`, `GroupMergeFiles`, `GroupRetirement`). Pruned Boolean evaluation
  with reused scratch, page summaries that are as small as page summaries can be, the backward
  demand pass, the k-way live merge, and the rank-indexed
  record format, all against one offset at a time. The stored bytes are modelled from the first
  header byte on: opening accepts exactly the bytes of valid groups, merging writes files that
  open, and retirement edits the liveness image in place. Merging commutes with every program
  exactly when the sources agree on shared live owners.
* **Queries** (`QueryTree`, `ParserMachine`, `ParserStacks`, `ParserLimits`, `QueryParser`). The
  shunting-yard builder accepts exactly the sentences of the grammar that fit its limits and
  builds their tree as a flat array.
* **Search** (`Oracle`, `Recheck`, `Ordering`, `InvertedIndex`, `IndexSearch`, `CandidatePlan`,
  `Frontier`). The document-at-a-time oracle with its work account, the ring-window and
  single-term rechecks, index construction and search, smallest candidate covers, and the
  lower-bound frontier loop with its exact output.
* **Stored positions** (`Varints`, `PositionStreams`, `PositionBlocks`, `PositionSeek`,
  `PhraseCursors`, `StoredDocument`, `DocumentPayload`, `DocumentFiles`). Canonical unsigned
  LEB128 (section 7.6 of DWARF version 5, redundant groups rejected), delta streams, block lists
  with a searchable directory, and the stored document with its two phrase matchers and its
  bytes. Validation accepts exactly what preparation produces. In the stored document a string
  stands for its UTF-8 bytes, one character for each byte.
* **Protocols** (`CountGuard`, `CountRuns`, `WorkClaims`, `WorkProgress`, `PostingWork`). The generation guard
  of visibility-map counts and the compare-and-replace work claim, for any number of
  participants and any interleaving; neither can get stuck, and every division of the work
  happens in some run. What PostgreSQL guarantees (the reclamation horizon, the
  meaning of the visibility map, indexing before visibility, a correct ordinary plan) is stated
  as when an environment step may happen.

Preconditions say what callers of the source guarantee. Words handed to `PrepareBytes` are text,
and merges start from opened groups. Phrases of a parsed query have at least
one term (crates/pin-core/src/query.rs:187-196), the flat array of a query is the one the parser
builds, and compaction and captured work start from a durable state whose dictionary references
resolve.

Five rows read an invariant or a guard off rather than carry a proof of their own:
`CompactionRuns.PostingHasOneOwner`, `CompactionRuns.FreeHasOneOwner`,
`CompactionRuns.OrphanIsUnreferenced`, `CountRuns.GuardFreezesIndex` and
`GroupedMembers.RetireRemovesExactly`. The weight is on what keeps those invariants: the
`PostingSteps` lemmas with `Compaction.RunAttempts`, `CountGuard.StepKeepsInv`, and
`GroupRetirement.ImageCleared` with `GroupRetirement.RetireRoots`.

Two results are about when a promise fails. `GroupedMerge.CommutesIffAgree`: merging keeps the
answers of all programs if and only if sources agree on the terms of every shared live owner;
`[Term, Not]` shows any disagreement. `CountRuns` has one run for each broken variant of the
guarded count: without the guard, with the copy before the guard, or with a remembered
visibility mark a reader reports a row its snapshot cannot see, and a count published page by
page is seen before it is complete.

## Model

| member | source | states |
|---|---|---|
| PostingPages.ChainsMeetAtTail | crates/pin-core/src/mutable/compact.rs:420-423 | two finite terminal chains of one term share a page if and only if their tails are equal |
| PostingPages.WalkIsChain | crates/pin-core/src/mutable/mod.rs:222-232 | following links from any chain position collects exactly the rest of the chain |
| PostingPages.ChainIsShort | crates/pin-core/src/mutable/mod.rs:222-226 | an acyclic chain has fewer pages than the relation has blocks, so the captured size bounds every walk |
| PostingSteps.ExtendKeepsGood | crates/pin-core/src/mutable/mod.rs:160-169 | reserving a block that is not yet written keeps the durable invariant |
| PostingSteps.ReclaimKeepsGood | crates/pin-core/src/mutable/compact.rs:427-453 | moving the journal's first page to the free list keeps the durable invariant |
| PostingSteps.StoreKeepsGood | crates/pin-core/src/mutable/compact.rs:354-384 | storing one output page and linking it to the Building journal keeps the durable invariant |
| PostingSteps.PublishKeepsGood | crates/pin-core/src/mutable/compact.rs:303-337 | switching a term to its rewritten chain, with or without a retained prefix, keeps the durable invariant |
| CompactionRuns.PostingHasOneOwner | crates/pin-core/src/mutable/compact.rs:240-454 | in every durable state a posting block is on its own term's active chain or in the journal, never both, on no other chain and not free |
| CompactionRuns.FreeHasOneOwner | crates/pin-core/src/mutable/compact.rs:343-352 | in every durable state a free block is on the free list and on no chain |
| CompactionRuns.OrphanIsUnreferenced | crates/pin-core/src/mutable/mod.rs:160-169 | a block that was extended and never written is referred to by no chain |
| CompactionRuns.ReaderWalksActive | crates/pin-core/src/mutable/mod.rs:222-232 | in every durable state a reader that follows links from a dictionary entry sees exactly the term's active chain |
| CompactionRuns.ProgressTrans | crates/pin-core/src/mutable/compact.rs:73-170 | what one attempt may do to a state, any sequence of attempts may do |
| CompactionRuns.LiveStreamUnchanged | crates/pin-core/src/mutable/compact.rs:73-340 | the live owners a reader sees in a term, in order, are the same before and after any run, finished or not |
| CompactionRuns.SkipIffClean | crates/pin-core/src/mutable/compact.rs:119-124 | the skip test holds if and only if no page of the chain is mutable, indirect where direct is wanted, or holds a removed owner |
| Compaction.Store.Inspect | crates/pin-core/src/mutable/compact.rs:173-238 | accepts exactly the terminal, acyclic, strictly ordered chains with resolvable owners, and returns exact counts and the retained prefix |
| Compaction.Store.Recover | crates/pin-core/src/mutable/compact.rs:395-454 | never rejects a durable state; on success frees exactly the journal's pages and returns their number; stopped anywhere, journal followed by free list is unchanged, so rerunning ends in the same free list |
| Compaction.Store.Drain | crates/pin-core/src/mutable/compact.rs:424-453 | the reclaiming loop empties the journal one or two pages per commit and keeps the invariant at each commit |
| Compaction.Store.PersistOutput | crates/pin-core/src/mutable/compact.rs:354-384 | after each batch the journal holds the references emitted so far in packed pages, or the durable state is the earlier one |
| Compaction.Store.OpenOutput | crates/pin-core/src/mutable/compact.rs:278-292 | an output block comes from the free list while it lasts and from an extension after that; a page is begun only when the one before it has no room for the reference |
| Compaction.Store.CopyLive | crates/pin-core/src/mutable/compact.rs:252-302 | the unpublished output holds exactly the live references of the rewritten suffix, in order and packed; a crash leaves every active chain as it was |
| Compaction.Store.Publish | crates/pin-core/src/mutable/compact.rs:303-340 | one commit replaces the term's chain by prefix and output and records the old suffix as retiring: the prefix keeps its blocks and pages up to the last link, no other block is shared, and the blocks used are accounted for; a failure leaves the old chain or the new one |
| Compaction.Store.Rewrite | crates/pin-core/src/mutable/compact.rs:240-340 | an invalid state only when a journal is pending, and then nothing is written; on success the term's stream is its live part, behind exactly the retained prefix in packed pages, and other terms are untouched; stopped anywhere, the old or the new chain is in place |
| Compaction.Store.CompactTerm | crates/pin-core/src/mutable/compact.rs:88-162 | a clean chain is skipped without a write; otherwise, with m leading live sealed pages, RetainSealedPrefix with m >= 2 keeps exactly the first m - 1 blocks and the other modes and cases none, the rest is packed, other chains are unchanged, and all six numbers of the report are determined |
| Compaction.Store.CompactBucket | crates/pin-core/src/mutable/compact.rs:79-168 | every entry of a bucket's dictionary chain is compacted, exactly the listed terms are rewritten and the report adds up over them; a settled bucket is left alone |
| Compaction.Store.Compact | crates/pin-core/src/mutable/compact.rs:73-170 | in each mode and at every failure point the state stays durable and live streams are kept; on success every reachable chain holds exactly its live owners, exactly the reachable chains that needed it were rewritten, and the report is the sum over them, with every block written, reused and reclaimed accounted for; a settled relation is left alone |
| CompactionAccounts.PushMeasures | crates/pin-core/src/mutable/page.rs:1140-1190 | a builder refuses a reference exactly when the page with it would not fit |
| CompactionAccounts.PublishedChain | crates/pin-core/src/mutable/compact.rs:303-337 | publishing keeps the first k blocks and their pages up to the last link, shares no other block with the old chain and leaves the output packed |
| CompactionAccounts.InspectedKept | crates/pin-core/src/mutable/compact.rs:125-128 | the prefix a mode passes on has as many pages as there are leading live sealed pages, less one, with retention, and none otherwise |
| CompactionAccounts.AccountsTrans | crates/pin-core/src/mutable/compact.rs:137-158 | the reports of two stretches of work add up to the report of both, and no term is worked on twice |
| CompactionAccounts.WorkIsExact | crates/pin-core/src/mutable/compact.rs:119-124 | a term that ends clean was rewritten if and only if it was not clean before |
| PagePacking.PartFits | crates/pin-core/src/mutable/page.rs:1140-1190 | consecutive references of a page fit on a page by themselves, although the first is then written in full |
| PagePacking.PackedIsFewest | crates/pin-core/src/mutable/compact.rs:262-302 | no way of cutting the same references into pages that fit uses fewer pages than a rewrite writes |
| Compaction.RunAttempts | crates/pin-core/src/mutable/compact.rs:73-170 | after any sequence of recoveries and compactions, each cut short anywhere, the state is durable and every term's live stream is the original one |
| Compaction.CompactTwice | crates/pin-core/src/mutable/compact.rs:119-124 | after a finished compaction, a second one with the same mode and liveness leaves every page as it was, whether it finishes or is cut short, and reports no work |
| GroupedQuery.PrunedPagesAreEmpty | crates/pin-kernels/src/grouped.rs:14-28 | a page outside the candidate summary has an empty answer for every program node |
| GroupedQuery.CandidatesMay | crates/pin-kernels/src/grouped.rs:14-28 | a page is in the summary of a node if and only if it is live and the program has room for a match on it, page by page |
| GroupedQuery.CandidatesAreTight | crates/pin-kernels/src/grouped.rs:14-28 | the summary lists every page that matches in some segment with these page summaries, and for programs of terms, AND, OR and All no other page |
| GroupedQuery.CombineIsExact | crates/pin-kernels/src/grouped.rs:32-48 | combining exact child masks of demanded children gives the exact mask of the node |
| GroupedQuery.ValidateProgram | crates/pin-core/src/grouped/query.rs:227-246 | accepts exactly nonempty programs within the limits whose operands precede their node |
| GroupedQuery.FillPages | crates/pin-core/src/grouped/query.rs:129-148 | the scratch summaries of the program's nodes become the candidate pages, whatever the scratch held before: for each node exactly the live pages with room for a match |
| GroupedQuery.Dependencies | crates/pin-core/src/grouped/query.rs:201-216 | the backward pass for one page marks exactly the demanded nodes |
| GroupedQuery.EvaluatePage | crates/pin-core/src/grouped/query.rs:158-190 | with arbitrary initial scratch the result is the pointwise answer of the root and only demanded terms are decoded |
| GroupedQuery.EvaluateSource | crates/pin-core/src/grouped/query.rs:121-198 | fails exactly on an invalid program; emits exactly the nonempty page answers, decodes only needed terms, and counts the candidate pages, those with live offsets and the emitted tuples |
| GroupedQuery.EmissionsAreExact | crates/pin-core/src/grouped/query.rs:150-197 | emissions are in strictly ascending block order, each the exact answer of its page, and no nonempty page is missing |
| GroupedQuery.NeededTerms | crates/pin-core/src/grouped/query.rs:248-299 | returns exactly the live pages with room for a match, and exactly the union over them of the terms read page by page, shared children included |
| GroupedMembers.Find | crates/pin-core/src/grouped/members.rs:95-106 | the binary search finds the member at a root if and only if there is one |
| GroupedMembers.PageOffsets | crates/pin-core/src/grouped/members.rs:153-167 | the offset mask of a page is exactly that of its members |
| GroupedMembers.RetireRemovesExactly | crates/pin-core/src/grouped/retire.rs:18-50 | after retirement every program's answer is its old answer without the approved roots |
| GroupedMerge.Advance | crates/pin-core/src/grouped/merge.rs:203-224 | a cursor moves to the next live member, with its page cache fresh |
| GroupedMerge.Visit | crates/pin-core/src/grouped/merge.rs:227-268 | fails exactly when two sources hold different live incarnations at one root; otherwise emits the strictly ascending union of live members, each once |
| GroupedMerge.EncodeLiveness | crates/pin-core/src/grouped/merge.rs:113-129 | merged liveness is the union of live bits, and with the visited members it is a group in which exactly the members' pages are summarised and all members are live |
| GroupedMerge.EncodePosting | crates/pin-core/src/grouped/merge.rs:139-191 | a merged posting holds exactly the posted offsets that are live in their source, with no empty page |
| GroupedMerge.Merge | crates/pin-core/src/grouped/merge.rs:27-191 | succeeds exactly without a conflict; the result is a valid group of the live members whose query view is the merge of the source views |
| GroupedMerge.MergeCommutes | crates/pin-core/src/grouped/merge.rs:113-191 | when sources agree on shared live owners, every program over the merge answers the union of the per-source answers |
| GroupedMerge.CommutesIffAgree | crates/pin-core/src/grouped/merge.rs:139-191 | merging commutes with all programs if and only if sources agree on the terms of every shared live owner |
| RankBitmap.RankOf | crates/pin-core/src/grouped/bitmap.rs:144-158 | the word prefix plus the population count below a page is the page's place in the directory |
| RankBitmap.Open | crates/pin-core/src/grouped/bitmap.rs:50-80 | accepts exactly packed directories whose spans are nonempty, within width, and end with the payload, and counts the pages before each mask word |
| RankBitmap.Offsets | crates/pin-core/src/grouped/bitmap.rs:104-127 | on an opened record an absent page is empty and a present one decodes the span found by rank and nothing else |
| RankBitmap.ValidateAll | crates/pin-core/src/grouped/bitmap.rs:137-142 | says whether every page of an opened record decodes |
| RankBitmap.Write | crates/pin-core/src/grouped/bitmap.rs:191-242 | fails exactly on an empty page or an offset outside the domain; otherwise writes the record of the bitmap, each page in the fewest bytes |
| RankBitmap.WrittenOpens | crates/pin-core/src/grouped/bitmap.rs:191-231 | every encodable bitmap is written as a record that opens |
| RankBitmap.WrittenReadsBack | crates/pin-core/src/grouped/bitmap.rs:191-242 | each page of a written record decodes to the offsets it was given |
| RankBitmap.WrittenContents | crates/pin-core/src/grouped/bitmap.rs:191-242 | a written record opens and holds exactly the bitmap it was written from |
| RankBitmap.LivenessDecodes | crates/pin-core/src/grouped/bitmap.rs:104-116 | a liveness page decodes if and only if it has no bit outside the offset domain |
| RankBitmap.ValidIsWritten | crates/pin-core/src/grouped/bitmap.rs:42-142 | a posting record that opens and fully decodes is exactly the record its contents would be written as |
| GroupFiles.HeaderReadsBack | crates/pin-core/src/grouped/mod.rs:96-146 | a written header is read back, whatever follows it |
| GroupFiles.HeaderLayout | crates/pin-core/src/grouped/mod.rs:130-147 | at which byte each header field stands and in how many bytes, and which bit of the mask stands for a page |
| GroupFiles.HeaderIsCanonical | crates/pin-core/src/grouped/mod.rs:96-128 | bytes whose header reads begin with exactly the bytes that header is written as |
| GroupFiles.OpenBitmap | crates/pin-core/src/grouped/bitmap.rs:42-81 | accepts exactly the byte strings that store a record under an identity, and returns that record and identity |
| GroupFiles.BitmapOnce | crates/pin-core/src/grouped/bitmap.rs:42-81 | one byte string stores at most one record under one identity |
| GroupFiles.BitmapFits | crates/pin-core/src/grouped/bitmap.rs:9-10 | every record that opens is within the bound on stored bitmaps |
| GroupFiles.EncodeBitmap | crates/pin-core/src/grouped/bitmap.rs:191-231 | fails exactly on an empty page, an offset outside the domain or the invalid last block; otherwise writes bytes that store the bitmap's record |
| GroupFiles.PostingIsCanonical | crates/pin-core/src/grouped/bitmap.rs:42-231 | stored postings that open and decode are byte for byte what their contents are encoded as |
| GroupOpening.OpenMembers | crates/pin-core/src/grouped/members.rs:32-56 | accepts exactly the byte strings of ascending valid owners of one group with the exact page summary, and returns them |
| GroupOpening.MembersIffRead | crates/pin-core/src/grouped/members.rs:32-89 | bytes store a membership if and only if the header and every owner record read as it |
| GroupOpening.MemberCount | crates/pin-core/src/grouped/members.rs:34-38 | ascending owners of a group never exceed its pages times its offset domain |
| GroupOpening.OpenGroup | crates/pin-core/src/grouped/members.rs:244-263 | accepts exactly a membership and a liveness image of one identity and page summary whose live bits are members and whose page widths are those of the whole membership; the result is a valid group |
| GroupOpening.ValidIsGroup | crates/pin-core/src/grouped/members.rs:244-263 | an opened group is the group queries, merges and retirement rely on |
| GroupOpening.FreshOpens | crates/pin-core/src/grouped/members.rs:108-116 | every valid membership with the liveness of all its members opens |
| GroupOpening.NarrowedOpens | crates/pin-core/src/grouped/bitmap.rs:26-28 | clearing any bits of a group's liveness payload keeps it opening |
| GroupMergeFiles.MergeGroups | crates/pin-core/src/grouped/merge.rs:27-129 | succeeds exactly when the identities fit and no live incarnations conflict; the membership and liveness bytes then open as a group with exactly the coordinates live in some source |
| GroupMergeFiles.MergePosting | crates/pin-core/src/grouped/merge.rs:139-191 | fails exactly on a missing slot, a foreign or non-posting record or one that does not decode; otherwise the bytes store exactly the offsets posted and live in their source |
| GroupMergeFiles.MergeAndOpen | crates/pin-core/src/grouped/merge.rs:27-191 | the group and postings opened from the merged bytes are the merge of the opened sources, and every program answers the union of the sources' answers if and only if they agree on shared live owners |
| GroupRetirement.StagePage | crates/pin-core/src/grouped/retire.rs:29-45 | visiting a page's offsets stages exactly the approved ones at their byte and bit and leaves other scratch bytes alone |
| GroupRetirement.ImageCleared | crates/pin-core/src/grouped/retire.rs:46-48 | taking a complete staging out of an image keeps header and directory, and every page decodes to the offsets that were not approved |
| GroupRetirement.RetireRoots | crates/pin-core/src/grouped/retire.rs:18-50 | clears in place, succeeding exactly on liveness of this identity that decodes and whose callbacks all answer; a failure leaves every byte; the number cleared is returned |
| GroupRetirement.Retire | crates/pin-core/src/grouped/members.rs:284-311 | clears in place exactly one offset of one page, says whether it was set, and fails without a change exactly for an unknown member or an image whose page does not match the membership |
| GroupRetirement.RetiredOpens | crates/pin-core/src/grouped/retire.rs:11-17 | a valid group stays valid under retirement, with exactly the offsets that were not approved |
| GroupRetirement.RetiredAnswers | crates/pin-core/src/grouped/retire.rs:18-50 | over the retired image every program's answer is its old answer without the approved roots |
| QueryTree.ChildrenComeFirst | crates/pin-core/src/query.rs:95-113 | in the flat array every operand index is below its node |
| QueryTree.OneParentEach | crates/pin-core/src/query.rs:95-127 | every node but the last is referred to exactly once, the last never |
| ParserMachine.ParseIsGrammar | crates/pin-core/src/query.rs:129-155 | the machine gives tree e for a token sequence if and only if the grammar with NOT over AND over OR, left associative, derives e |
| ParserMachine.GrammarIsUnambiguous | crates/pin-core/src/query.rs:74-83 | no token sequence has two trees |
| ParserStacks.ReduceKeepsMeaning | crates/pin-core/src/query.rs:115-127 | applying a pending operator early gives the subtree that applying it late would |
| QueryParser.Builder.AddNode | crates/pin-core/src/query.rs:95-113 | appends one node with the depth of its children plus one, or fails exactly on a limit |
| QueryParser.Builder.Reduce | crates/pin-core/src/query.rs:115-127 | replaces the top values by the operator's tree and extends the array accordingly; a syntax error exactly when operands are missing |
| QueryParser.Builder.Operator | crates/pin-core/src/query.rs:129-145 | one machine step for an operator or an opening parenthesis, or a limit below the tokens read |
| QueryParser.Builder.CloseParen | crates/pin-core/src/query.rs:147-155 | one machine step for a closing parenthesis; a syntax error only without an open one |
| ParserLimits.OverBinary | crates/pin-core/src/query.rs:129-145 | a reduction stopped by a limit means the trees after the operator exceed it |
| ParserLimits.RunGrows | crates/pin-core/src/query.rs:95-155 | no state on the way to a sentence has more nodes or a deeper tree than the sentence |
| ParserLimits.SentenceVerdict | crates/pin-core/src/query.rs:95-155 | a sentence is accepted if and only if its tree's size and depth, and the operator stack's height and the nesting after every token, are within the limits |
| QueryParser.ParseTokens | crates/pin-core/src/query.rs:257-368 | on every sequence the flattened tree, with the root last, of the limited machine's verdict, or its error; so exactly the sentences of the grammar that fit the limits are accepted, a sentence that does not fit is a limit error, anything else an error, and no tokens give the matches-nothing node |
| Oracle.ScanPhrase | crates/pin-core/src/oracle.rs:48-71 | windows are compared up to the first equal one, charging every comparison; the value is whether the phrase stands somewhere |
| Oracle.ScanStopsAtFirst | crates/pin-core/src/oracle.rs:26-47 | a word or prefix scan is charged the index of the first fitting word plus one, or the length of the document |
| Oracle.WindowStopsAtDifference | crates/pin-core/src/oracle.rs:54-64 | a window is charged up to and including its first difference |
| Oracle.PhraseStopsAtFirst | crates/pin-core/src/oracle.rs:48-71 | a phrase is charged all windows up to the first equal one, or all that fit |
| Oracle.CostIsNodesAndLeaves | crates/pin-core/src/oracle.rs:22-78 | the whole cost is one step for each node plus what each leaf looks at, nothing short-circuited |
| Oracle.Evaluate | crates/pin-core/src/oracle.rs:20-79 | node values of any ordered array, or a work error exactly when the summed cost exceeds the budget |
| Oracle.FlattenValue | crates/pin-core/src/oracle.rs:22-78 | the last node of a flattened tree has the tree's meaning |
| Oracle.MatchDocument | crates/pin-core/src/oracle.rs:10-79 | the oracle's outcome is the tree's meaning if the tree's cost is within the budget, otherwise a work error |
| Recheck.AnalyzeThenMatch | crates/pin-core/src/analysis.rs:56-79 | analysis reports the first limit violation in word order, and the oracle runs only without one |
| Recheck.MatchWords | crates/pin-core/src/recheck.rs:171-202 | for every word sequence, limits and budget the same outcome as analysis followed by the oracle |
| Recheck.MatchPhraseWords | crates/pin-core/src/recheck.rs:112-169 | the ring-window matcher has the same value or the same error as analysis followed by the oracle |
| Ordering.PrefixInterval | crates/pin-core/src/index.rs:241-247 | everything between a prefix and a string starting with it starts with it |
| Ordering.LowerBound | crates/pin-core/src/index.rs:352-369 | returns the partition point of a partitioned sequence |
| InvertedIndex.Build | crates/pin-core/src/index.rs:121-208 | fails exactly when a limit is exceeded, a document is foreign or a root repeated, naming a check that fails; otherwise documents by root, postings exactly the word occurrences in order, and a sorted dictionary with document frequencies |
| InvertedIndex.CountDistinct | crates/pin-core/src/index.rs:173-181 | the changes of term in sorted postings number the distinct words |
| InvertedIndex.FrequencyIsDocuments | crates/pin-core/src/index.rs:183-199 | an entry's counted frequency is the number of documents with its word |
| IndexSearch.Lookup | crates/pin-core/src/index.rs:232-239 | finds a dictionary entry if and only if the word is listed |
| IndexSearch.PrefixRange | crates/pin-core/src/index.rs:241-247 | the returned interval holds exactly the entries with the prefix |
| IndexSearch.DocumentPostings | crates/pin-core/src/index.rs:249-262 | the returned interval holds exactly the postings of one word in one document |
| IndexSearch.HasPosition | crates/pin-core/src/index.rs:264-270 | says whether the interval has a position |
| IndexSearch.MatchPhrase | crates/pin-core/src/index.rs:479-526 | walking only the shortest list decides whether the phrase occurs, for any anchor and repeated terms |
| IndexSearch.MatchOrdinal | crates/pin-core/src/index.rs:405-442 | the reused value scratch gives the oracle's value of one document |
| IndexSearch.IntervalSize | crates/pin-core/src/index.rs:241-247 | the interval of a prefix has one entry for each distinct word that starts with it |
| IndexSearch.BindAll | crates/pin-core/src/index.rs:273-323 | binds every node, and fails exactly when the prefixes stand for more words than allowed |
| IndexSearch.Cursor.Next | crates/pin-core/src/index.rs:452-474 | yields the next document the oracle accepts, skipping only rejected ones, and none exactly when no other is left |
| IndexSearch.Search | crates/pin-core/src/index.rs:273-350 | taking every candidate returns in ascending order exactly the documents the oracle accepts |
| IndexSearch.AscendingRoots | crates/pin-core/src/index.rs:452-474 | ascending ordinals are strictly ascending roots |
| CandidatePlan.CoverSize | crates/pin-core/src/candidate.rs:33-51 | the collected terms number exactly the root's cost |
| CandidatePlan.CoverIsNecessary | crates/pin-core/src/candidate.rs:33-91 | every document a query accepts contains a term of its cover |
| CandidatePlan.CoverIsLeast | crates/pin-core/src/candidate.rs:33-51 | among all covers a tree admits, one side of each AND, both of each OR, a term for each leaf and nothing under NOT or a prefix, the collected one has the fewest terms; the cost is unbounded exactly if none is admitted and zero exactly if the empty one is |
| CandidatePlan.TiesGoLeft | crates/pin-core/src/candidate.rs:71-77 | an AND is covered by its left side exactly when that side admits a smallest cover |
| CandidatePlan.Collect | crates/pin-core/src/candidate.rs:57-86 | the stack loop collects the cover, which is a smallest admitted one, never reaches its invalid state, and never holds more entries than there are nodes |
| CandidatePlan.BuildPlan | crates/pin-core/src/candidate.rs:29-91 | Universe exactly for trees that admit no cover, Empty exactly for those that admit the empty one, otherwise a smallest admitted cover sorted without repeats; no accepted document is missed |
| Frontier.BoundIsLower | tools/issue14_model.py:48-57 | a document that no stream has passed and that could match with every NOT read as true is never below the bound |
| Frontier.ReachedIsPossible | tools/issue14_model.py:48-57 | a document all streams have reached and the bound does not exceed could match with every NOT read as true |
| Frontier.Candidates | tools/issue14_model.py:39-83 | ends within its probe limit for every expression and streams; the strictly increasing output is exactly the documents for which the expression holds with every NOT read as true, hence exactly the matches without a NOT and never fewer |
| Varints.ReadsBack | crates/pin-core/src/codec/bytes.rs:178-190 | every 32-bit value written anywhere in a buffer is read back with the cursor behind it |
| Varints.ReadIsCanonical | crates/pin-core/src/codec/bytes.rs:64-83 | whatever is read is, byte for byte, the encoding of the value |
| Varints.Reader.VarU32 | crates/pin-core/src/codec/bytes.rs:64-83 | returns the specified value or error, and a failed read leaves the cursor unchanged |
| Varints.WriteVar | crates/pin-core/src/codec/bytes.rs:178-190 | writes the canonical groups |
| Varints.VarLengthIsLength | crates/pin-core/src/codec/bytes.rs:193-199 | the size computed from the highest bit is the encoded size |
| Varints.VarGroup | crates/pin-core/src/codec/bytes.rs:178-190 | byte k of a varint holds bits 7k to 7k + 6 of the value, with the high bit set exactly if another byte follows |
| Varints.FieldByte | crates/pin-core/src/codec/bytes.rs:148-162 | byte j of a fixed field holds bits 8j to 8j + 7 of the value |
| PositionStreams.EncodePositions | crates/pin-core/src/codec/positions.rs:90-118 | succeeds exactly on increasing lists within the limit and writes their encoding |
| PositionStreams.ParsePositions | crates/pin-core/src/codec/positions.rs:15-88 | the iterator's result equals the recursive parse, error for error |
| PositionStreams.EncodedParses | crates/pin-core/src/codec/positions.rs:15-32 | encoding and then parsing gives the list back |
| PositionStreams.ParsedIsEncoded | crates/pin-core/src/codec/positions.rs:15-32 | bytes that parse are exactly the encoding of the positions they hold |
| PositionBlocks.Open | crates/pin-core/src/codec/position_blocks.rs:55-86 | accepts exactly directories with contiguous extents, possible lengths and rising bounds |
| PositionBlocks.EncodedOpens | crates/pin-core/src/codec/position_blocks.rs:170-216 | every encoded list opens |
| PositionBlocks.ChunksFlat | crates/pin-core/src/codec/position_blocks.rs:170-216 | cutting joined blocks into blocks of 128 gives the blocks back |
| PositionBlocks.FlatSteps | crates/pin-core/src/codec/position_blocks.rs:55-86 | the positions of blocks with rising bounds increase throughout |
| PositionBlocks.ValidIsEncoded | crates/pin-core/src/codec/position_blocks.rs:35-167 | the positions a view holds, when it opens and fully decodes, are an increasing list of its count whose encoding is the view |
| PositionSeek.Decode | crates/pin-core/src/codec/position_blocks.rs:114-141 | decodes one whole block, with the first position at or above the target |
| PositionSeek.SeekEncoded | crates/pin-core/src/codec/position_blocks.rs:144-159 | on every encoded list the answer is that of a linear scan and at most 128 positions are decoded |
| PositionSeek.LinearSeek | crates/pin-core/src/codec/positions.rs:62-85 | the first position at or above the target, by scanning |
| PositionSeek.SeekBothWays | crates/pin-core/src/codec/position_blocks.rs:144-159 | on the bytes of both encodings of one list, the block seek and the scan of the parsed stream return the same position, with at most 128 positions decoded |
| PositionSeek.ValidateAll | crates/pin-core/src/codec/position_blocks.rs:161-166 | says whether every block decodes |
| PositionSeek.EncodeList | crates/pin-core/src/codec/position_blocks.rs:170-216 | fails exactly on a list that is too long or not increasing; otherwise directory and payload of the list's blocks of 128, every extent fitting its field |
| PositionSeek.PayloadShort | crates/pin-core/src/codec/position_blocks.rs:186-194 | the payload of any list is no longer than the distance its positions span, so its 32-bit check never fails |
| PositionSeek.EncodeFile | crates/pin-core/src/codec/position_blocks.rs:170-216 | exactly the increasing lists of admissible length have a block file, and these are its bytes |
| PositionSeek.FileReadsBack | crates/pin-core/src/codec/position_blocks.rs:35-53 | splitting a written file gives the view back |
| PositionSeek.FileLayout | crates/pin-core/src/codec/position_blocks.rs:202-216 | the letters PB01, the count, then for block i at byte 8 + 16i its first and last position and the start and end of its extent, each least significant byte first, then the payload |
| PositionSeek.FileReencodes | crates/pin-core/src/codec/position_blocks.rs:35-167 | the positions held in bytes that open and validate encode to those bytes |
| PositionSeek.Reencode | crates/pin-core/src/codec/position_blocks.rs:35-216 | opening, validating, collecting the positions and encoding them returns the same bytes, and does so exactly for bytes that open and validate |
| PhraseCursors.Advance | crates/pin-core/src/mutable/document.rs:344-358 | a forward cursor hits exactly when its list has the target, if it only gave up smaller values before |
| PhraseCursors.MatchLists | crates/pin-core/src/mutable/document.rs:315-368 | although cursors only move forward, the result is whether some start has every term at its place |
| StoredDocument.GoodIffDescribed | crates/pin-core/src/mutable/document.rs:486-550 | the validity checks hold if and only if some word sequence is stored as this payload |
| StoredDocument.DescribedOnce | crates/pin-core/src/mutable/document.rs:32-93 | a payload is the stored form of at most one word sequence |
| StoredDocument.PayloadOnce | crates/pin-core/src/mutable/document.rs:32-93 | a word sequence has at most one payload |
| StoredDocument.StoredOneToOne | crates/pin-core/src/mutable/document.rs:32-93 | words and their payloads within the limits determine each other |
| DocumentPayload.Prepare | crates/pin-core/src/mutable/document.rs:32-93 | succeeds exactly when the words have a stored form within the limits, and returns that one |
| DocumentPayload.Validate | crates/pin-core/src/mutable/document.rs:482-550 | accepts exactly the payloads that some words are stored as |
| DocumentPayload.AcceptedIsPrepared | crates/pin-core/src/mutable/document.rs:32-550 | an accepted payload is the stored form of exactly one word sequence, and that sequence has no other |
| DocumentPayload.ValidateThenPrepare | crates/pin-core/src/mutable/document.rs:32-550 | preparing words returns a given payload if and only if the payload stores them, and validation then accepts it with their counts |
| DocumentPayload.PhraseMatches | crates/pin-core/src/mutable/document.rs:201-224 | succeeds exactly on stored documents with the expected counts and bounded phrases, with the oracle's answer for the stored words |
| DocumentPayload.SelectedPhraseMatches | crates/pin-core/src/mutable/document.rs:237-313 | succeeds exactly when counts, order, entry headers and the wanted streams are in order, with the match of the wanted streams |
| DocumentPayload.StoredSelectable | crates/pin-core/src/mutable/document.rs:243-306 | the selecting reader accepts every stored document, whatever is wanted of it |
| DocumentFiles.EntryReadsBack | crates/pin-core/src/mutable/document.rs:77-86 | a written entry is read back, whatever follows it |
| DocumentFiles.EntryIsCanonical | crates/pin-core/src/mutable/document.rs:158-172 | an entry that reads is, byte for byte, what it is written as, and its text is UTF-8 |
| DocumentFiles.ReadDocument | crates/pin-core/src/mutable/document.rs:154-178 | accepts exactly the bytes of some payload, with nothing after its last entry, and returns it |
| DocumentFiles.PrepareBytes | crates/pin-core/src/mutable/document.rs:32-93 | succeeds exactly when the words have a stored form, and returns its bytes and no others |
| DocumentFiles.ValidateBytes | crates/pin-core/src/mutable/document.rs:482-550 | accepts exactly the bytes that some words of text are prepared as |
| DocumentFiles.BytesOneToOne | crates/pin-core/src/mutable/document.rs:32-93 | words and the bytes that store them determine each other |
| DocumentFiles.PhraseInBytes | crates/pin-core/src/mutable/document.rs:201-224 | succeeds exactly on the bytes of stored documents with the expected counts, with the oracle's answer for their words |
| DocumentFiles.SelectedInBytes | crates/pin-core/src/mutable/document.rs:237-313 | accepts exactly the bytes whose counts, order, entry headers and wanted streams are in order, and answers as the oracle on every stored document |
| CountGuard.CountedIsExpected | crates/pin-pg/cshim/pin_count.c:616-655 | whether its page was marked or not, the slots a reader counts are those of the expected roots there |
| CountGuard.StepKeepsInv | tools/g9_count_model.py:58-103 | every step of readers, writers and heap keeps the protocol invariant |
| CountRuns.CountsAreExact | tools/g9_count_model.py:54-115 | in every run a completed reader has the number of indexed roots its snapshot saw when it began, nothing else is ever shown to its client, and a completed or cancelled one holds no guard |
| CountRuns.EndingsAreFinal | tools/g9_count_model.py:82-83 | what a reader ended with never changes, so a cancelled reader never gets a result |
| CountRuns.GuardFreezesIndex | crates/pin-pg/cshim/pin_count.c:569-592 | while any guard is held no step changes the index membership |
| CountRuns.ReadersCanFinish | crates/pin-pg/src/grouped_count.rs:268-294 | from every reachable state a running reader can finish exactly by its own steps alone |
| CountRuns.IgnoredGuardMiscounts | tools/g9_count_model.py:90-103 | if cleanup ignores the guard, some run reports a row the snapshot cannot see |
| CountRuns.CachedMarkMiscounts | tools/g9_count_model.py:72-73 | with a remembered visibility mark, some run reports a row the snapshot cannot see |
| CountRuns.EarlyCopyMiscounts | tools/g9_count_model.py:60-61 | if membership is copied before the guard is taken, some run reports a row the snapshot cannot see |
| CountRuns.PartialIsSeen | tools/g9_count_model.py:77-78 | if the count is published page by page, some run shows a running reader's client less than its count |
| WorkClaims.StepKeepsInv | crates/pin-pg/cshim/pin_storage.c:467-549 | publishing, snapshots, claims won or lost, consumption and accumulation keep the account of claims |
| WorkProgress.WorkerCanFinish | crates/pin-pg/cshim/pin_storage.c:491-549 | from every reachable state whose work yields batches, whatever a participant was doing, it can finish by its own steps alone, claiming exactly what is left in order, while nobody else moves |
| WorkProgress.AllCanFinish | crates/pin-pg/cshim/pin_storage.c:467-549 | no reachable state is a dead end: all participants can still add their shares |
| WorkProgress.EveryDivisionHappens | crates/pin-pg/cshim/pin_storage.c:467-549 | for all work that yields batches, every team and every assignment of batches to its members, some run ends with all members added and exactly these claims |
| WorkClaims.AllAddedIsSequential | crates/pin-pg/cshim/pin_count.c:715-773 | once all participants have added, the claims are the sequential batches in order, each consumed by the one that claimed it, and the total is the sequential total |
| WorkClaims.RunsAgree | crates/pin-pg/src/count.rs:289-319 | two complete runs over the same work claim the same batches and reach the same total |
| PostingWork.PrepareNext | crates/pin-core/src/mutable/work.rs:149-218 | the preparing code computes the deterministic successor and batch, comparing each owner only with the one before |
| PostingWork.TermYields | crates/pin-core/src/mutable/work.rs:42-82 | the captured work of a durable term yields its inline owner and then its chain's pages, without an error |
| PostingWork.ScanCompletes | crates/pin-pg/src/am.rs:665-708 | every team can complete the scan of a durable term with any division of its inline owner and pages, and has then read every owner |
| PostingWork.ClaimsNeverRepeat | crates/pin-core/src/mutable/work.rs:140-218 | on any pages, damaged ones included, the owners claimed in any state of any run rise strictly, so none is handed out twice, and a cyclic chain is cut off within the captured limit |
| PostingWork.ParallelScanIsExact | crates/pin-pg/src/am.rs:665-708 | however readers interleave, together they consume the term's owners exactly once each |

## Left out

- Packed dictionary entries (`inline_second`, `shadow_second`) and frontier invalidation during compaction; rewriting is modelled without them.
- Byte layouts of mutable pages, page checksums and the metadata pages of grouped storage; those pages are values with the fields the modelled code reads and writes.
- Which of several error values an opening reports; `OpenBitmap`, `OpenMembers`, `OpenGroup` and `ReadDocument` say exactly when there is one. Output buffers that are too small and interrupts are not modelled either.
- GroupedMerge.Merge: leaves the identity checks of the merge plan to `GroupMergeFiles.MergeGroups`, which has them.
- Mask words are sets of bits, so word-level operations of the kernels, AVX2 and CPU dispatch are not modelled.
- The payload and byte counters of the grouped query statistics (`term_payloads`, `term_bytes`); the other three are modelled.
- Memory budgets, allocator failures and capacity growth, except the candidate stack bound.
- Lexing of query text, analysis of literals, error offsets and the query's stored form; the parser starts from tokens.
- Normalization, case folding and word segmentation; a document is any sequence of words.
- IndexSearch.Search: does not model the work-step budget of the indexed search, which only turns an answer into an error; the oracle's and the rechecks' budgets are modelled exactly.
- InvertedIndex.Build: does not model the memory budget of index construction.
- Term membership over a stored document (`TermMembership`), which would add easier members of the same kind.
- 64-bit varints, which follow the 32-bit ones.
- The owner-chain form of captured work; the claim protocol is proved for any deterministic work, the posting form also concretely.
- 64-bit overflow of counters and statistics in counting and compaction statistics beyond the reported limit errors.
- PostgreSQL glue: planner hooks, custom scans, buffers, WAL beyond atomic multi-page commits, shared memory, settings.
- BM25 ranking (floating point), background maintenance, and everything under `tools/` except the two modelled scripts.
