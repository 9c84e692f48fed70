/**
 Merging live segments: a k-way visit of live members, the merged liveness and postings,
 and the proof that merging commutes with querying.
 */
module GroupedMerge {
  import opened Outcomes
  import opened GroupedQuery
  import opened GroupedMembers

  const MAX_MERGE_SOURCES: nat := 16

  // ----- one source -----

  /** The live members from position `i` on, in order. */
  ghost function LiveFrom(g: Group, i: nat): seq<Member>
    requires i <= |g.members|
    decreases |g.members| - i
  {
    if i == |g.members| then []
    else if IsLive(g, g.members[i]) then [g.members[i]] + LiveFrom(g, i + 1)
    else LiveFrom(g, i + 1)
  }

  lemma {:induction false} LiveFromMembers(g: Group, i: nat)
    requires GroupOk(g) && i <= |g.members|
    ensures forall m :: m in LiveFrom(g, i) <==> m in g.members[i..] && IsLive(g, m)
    ensures Ascending(LiveFrom(g, i))
    decreases |g.members| - i
  {
    hide IsLive, Less, Ascending;
    if i == |g.members| {
      NoneLeft(g.members);
    } else {
      LiveFromMembers(g, i + 1);
      assert g.members[i..] == [g.members[i]] + g.members[i + 1..];
      forall m | m in LiveFrom(g, i + 1)
        ensures Less(g.members[i].root, m.root)
      {
        LaterIsGreater(g.members, i, m);
      }
      AscendingCons(g.members[i], LiveFrom(g, i + 1));
    }
  }

  lemma NoneLeft(members: seq<Member>)
    ensures members[|members|..] == [] && Ascending([])
  {
  }

  lemma LaterIsGreater(members: seq<Member>, i: nat, m: Member)
    requires Ascending(members) && i < |members| && m in members[i + 1..]
    ensures Less(members[i].root, m.root)
  {
    hide Less;
    var j :| 0 <= j < |members[i + 1..]| && members[i + 1..][j] == m;
    assert Less(members[i].root, members[i + 1 + j].root);
  }

  lemma AscendingCons(m: Member, rest: seq<Member>)
    requires Ascending(rest) && forall x | x in rest :: Less(m.root, x.root)
    ensures Ascending([m] + rest)
  {
    hide Less;
  }

  /** A position in one source, with the liveness of the page it read last. */
  datatype Cursor = Cursor(index: nat, page: Option<nat>, live: set<nat>, current: Option<Member>)

  ghost predicate CacheFresh(g: Group, c: Cursor) {
    c.page.Some? ==> c.live == Offsets(g.live, c.page.value)
  }

  ghost predicate CursorOk(g: Group, c: Cursor) {
    && c.index <= |g.members|
    && CacheFresh(g, c)
    && (c.current.None? ==> c.index == |g.members|)
  }

  /** What a cursor has yet to deliver. */
  ghost function Remaining(g: Group, c: Cursor): seq<Member>
    requires c.index <= |g.members|
  {
    if c.current.Some? then [c.current.value] + LiveFrom(g, c.index) else []
  }

  /** Moves to the next live member; the page's liveness is read once per page. */
  method Advance(g: Group, c: Cursor) returns (after: Cursor)
    requires GroupOk(g) && c.index <= |g.members| && CacheFresh(g, c)
    ensures CursorOk(g, after)
    ensures Remaining(g, after) == LiveFrom(g, c.index)
  {
    hide LiveFrom, GroupOk, Less, Ascending, Offsets;
    GroupMembers(g);
    var index, page, live := c.index, c.page, c.live;
    while index < |g.members|
      invariant c.index <= index <= |g.members|
      invariant page.Some? ==> live == Offsets(g.live, page.value)
      invariant LiveFrom(g, index) == LiveFrom(g, c.index)
    {
      var member := g.members[index];
      LiveStep(g, index);
      index := index + 1;
      var p := PageOf(g.base, member.root);
      if page != Some(p) {
        live := Offsets(g.live, p);
        page := Some(p);
      }
      if BitOf(member.root) in live {
        return Cursor(index, page, live, Some(member));
      }
    }
    LiveEnd(g);
    after := Cursor(index, page, live, None);
  }

  lemma GroupMembers(g: Group)
    requires GroupOk(g)
    ensures forall i | 0 <= i < |g.members| :: InGroup(g.base, g.members[i].root)
  {
  }

  lemma LiveStep(g: Group, i: nat)
    requires i < |g.members|
    ensures LiveFrom(g, i) == (if IsLive(g, g.members[i]) then [g.members[i]] else []) + LiveFrom(g, i + 1)
  {
    hide IsLive;
  }

  lemma LiveEnd(g: Group)
    ensures LiveFrom(g, |g.members|) == []
  {
  }

  // ----- all sources -----

  ghost predicate SourcesOk(gs: seq<Group>) {
    && |gs| <= MAX_MERGE_SOURCES
    && (forall i | 0 <= i < |gs| :: GroupOk(gs[i]))
    && (forall i, j | 0 <= i < |gs| && 0 <= j < |gs| :: gs[i].base == gs[j].base)
  }

  ghost predicate LiveSomewhere(gs: seq<Group>, m: Member) {
    exists i :: 0 <= i < |gs| && LiveIn(gs[i], m)
  }

  ghost predicate LiveIn(g: Group, m: Member) {
    m in g.members && IsLive(g, m)
  }

  /** Two sources hold different live incarnations at one coordinate. */
  ghost predicate Conflict(gs: seq<Group>) {
    exists a, b :: LiveSomewhere(gs, a) && LiveSomewhere(gs, b) && a.root == b.root && a != b
  }

  /** All that was delivered lies before all that remains; nothing is lost or invented. */
  ghost predicate Visiting(gs: seq<Group>, cursors: seq<Cursor>, emitted: seq<Member>) {
    && |cursors| == |gs|
    && Ascending(emitted)
    && (forall i | 0 <= i < |gs| :: CursorOk(gs[i], cursors[i]) && RestOk(gs[i], cursors[i], emitted))
    && (forall m | m in emitted :: LiveSomewhere(gs, m))
  }

  ghost predicate RestOk(g: Group, c: Cursor, emitted: seq<Member>)
    requires c.index <= |g.members|
  {
    && Ascending(Remaining(g, c))
    && (forall m | m in Remaining(g, c) :: LiveIn(g, m) && forall e | e in emitted :: Less(e.root, m.root))
    && (forall m | LiveIn(g, m) :: m in emitted || m in Remaining(g, c))
  }

  /** The smallest coordinate any cursor stands on. */
  method SmallestCurrent(cursors: array<Cursor>) returns (r: Option<Member>)
    ensures r.None? ==> forall i | 0 <= i < cursors.Length :: cursors[i].current.None?
    ensures r.Some? ==>
              && (exists i :: 0 <= i < cursors.Length && cursors[i].current == r)
              && (forall i | 0 <= i < cursors.Length && cursors[i].current.Some? ::
                   !Less(cursors[i].current.value.root, r.value.root))
  {
    r := None;
    for i := 0 to cursors.Length
      invariant r.None? ==> forall k | 0 <= k < i :: cursors[k].current.None?
      invariant r.Some? ==> exists k :: 0 <= k < i && cursors[k].current == r
      invariant r.Some? ==>
                  forall k | 0 <= k < i && cursors[k].current.Some? ::
                  !Less(cursors[k].current.value.root, r.value.root)
    {
      if cursors[i].current.Some? && (r.None? || Less(cursors[i].current.value.root, r.value.root)) {
        r := cursors[i].current;
      }
    }
  }

  lemma StartRest(g: Group, c: Cursor)
    requires GroupOk(g) && CursorOk(g, c) && Remaining(g, c) == LiveFrom(g, 0)
    ensures RestOk(g, c, [])
  {
    LiveFromMembers(g, 0);
    assert g.members[0..] == g.members;
  }

  /** A cursor standing on the emitted coordinate steps past it. */
  lemma RestAdvances(g: Group, c: Cursor, after: Cursor, emitted: seq<Member>, m: Member)
    requires CursorOk(g, c) && CursorOk(g, after) && RestOk(g, c, emitted)
    requires c.current == Some(m) && Remaining(g, after) == LiveFrom(g, c.index)
    ensures RestOk(g, after, emitted + [m])
  {
    hide LiveFrom, LiveIn, Less, CacheFresh;
    var rest := Remaining(g, after);
    assert Remaining(g, c) == [m] + rest;
    forall i, j | 0 <= i < j < |rest|
      ensures Less(rest[i].root, rest[j].root)
    {
      assert Less(Remaining(g, c)[i + 1].root, Remaining(g, c)[j + 1].root);
    }
    forall x | x in rest
      ensures LiveIn(g, x) && forall e | e in emitted + [m] :: Less(e.root, x.root)
    {
      var j :| 0 <= j < |rest| && rest[j] == x;
      assert Remaining(g, c)[j + 1] == x;
      assert Less(Remaining(g, c)[0].root, Remaining(g, c)[j + 1].root);
    }
    forall x | LiveIn(g, x)
      ensures x in emitted + [m] || x in rest
    {
      assert x in emitted || x in Remaining(g, c);
    }
  }

  /** A cursor standing further on is not affected. */
  lemma RestWaits(g: Group, c: Cursor, emitted: seq<Member>, m: Member)
    requires CursorOk(g, c) && RestOk(g, c, emitted)
    requires c.current.Some? ==> Less(m.root, c.current.value.root)
    ensures RestOk(g, c, emitted + [m])
  {
    var rest := Remaining(g, c);
    forall x | x in rest
      ensures Less(m.root, x.root)
    {
      var j :| 0 <= j < |rest| && rest[j] == x;
      if j > 0 {
        assert Less(rest[0].root, rest[j].root);
      }
    }
  }

  /** Steps every cursor past `m`, or stops at a different live incarnation. */
  method PassMember(gs: seq<Group>, cursors: array<Cursor>, m: Member, ghost emitted: seq<Member>)
      returns (conflict: bool)
    requires SourcesOk(gs) && cursors.Length == |gs|
    requires Visiting(gs, cursors[..], emitted)
    requires exists i :: 0 <= i < |gs| && cursors[i].current == Some(m)
    requires forall i | 0 <= i < |gs| && cursors[i].current.Some? :: !Less(cursors[i].current.value.root, m.root)
    modifies cursors
    ensures conflict ==> Conflict(gs)
    ensures !conflict ==> Visiting(gs, cursors[..], emitted + [m])
  {
    hide RestOk, GroupOk, Conflict, LiveFrom, Remaining, CacheFresh, Less, LiveIn, Ascending, LiveSomewhere;
    ghost var start := cursors[..];
    ghost var mine :| 0 <= mine < |gs| && start[mine].current == Some(m);
    CurrentIsLive(gs, start, emitted, mine);
    for i := 0 to |gs|
      invariant forall k | i <= k < |gs| :: cursors[k] == start[k]
      invariant forall k | 0 <= k < i :: CursorOk(gs[k], cursors[k]) && RestOk(gs[k], cursors[k], emitted + [m])
    {
      var current := cursors[i].current;
      if current.Some? && current.value.root == m.root {
        if current.value.incarnation != m.incarnation {
          CurrentIsLive(gs, start, emitted, i);
          ConflictFound(gs, current.value, m);
          return true;
        }
        assert current.value == m;
        var after := Advance(gs[i], cursors[i]);
        RestAdvances(gs[i], start[i], after, emitted, m);
        cursors[i] := after;
      } else {
        Trichotomy(cursors[i].current, m.root);
        RestWaits(gs[i], start[i], emitted, m);
      }
    }
    AscendingSnoc(emitted, m);
    conflict := false;
  }

  lemma Trichotomy(current: Option<Member>, r: Root)
    requires current.Some? ==> current.value.root != r && !Less(current.value.root, r)
    ensures current.Some? ==> Less(r, current.value.root)
  {
  }

  lemma AscendingSnoc(emitted: seq<Member>, m: Member)
    requires Ascending(emitted) && forall e | e in emitted :: Less(e.root, m.root)
    ensures Ascending(emitted + [m])
  {
  }

  lemma ConflictFound(gs: seq<Group>, a: Member, b: Member)
    requires LiveSomewhere(gs, a) && LiveSomewhere(gs, b) && a.root == b.root && a != b
    ensures Conflict(gs)
  {
  }

  /** What a cursor stands on is live and lies behind everything delivered. */
  lemma CurrentIsLive(gs: seq<Group>, cursors: seq<Cursor>, emitted: seq<Member>, i: nat)
    requires Visiting(gs, cursors, emitted) && i < |gs| && cursors[i].current.Some?
    ensures LiveSomewhere(gs, cursors[i].current.value)
    ensures forall e | e in emitted :: Less(e.root, cursors[i].current.value.root)
  {
    hide GroupOk, LiveFrom, CacheFresh, Less, LiveIn, Ascending;
    assert RestOk(gs[i], cursors[i], emitted);
    var m := cursors[i].current.value;
    assert m == Remaining(gs[i], cursors[i])[0];
    assert LiveIn(gs[i], m);
  }

  /**
   Delivers each live coordinate once, in ascending order, and fails exactly when two
   sources hold different live incarnations at one coordinate.
   */
  method Visit(gs: seq<Group>) returns (r: Result<seq<Member>, Error>)
    requires SourcesOk(gs)
    ensures r.Ok? <==> !Conflict(gs)
    ensures r.Err? ==> r.error == InvalidState
    ensures r.Ok? ==> Ascending(r.value) && forall m :: m in r.value <==> LiveSomewhere(gs, m)
  {
    hide RestOk, GroupOk, Conflict, LiveFrom, Remaining, Less, LiveIn, LiveSomewhere;
    var cursors := new Cursor[|gs|](_ => Cursor(0, None, {}, None));
    for i := 0 to |gs|
      invariant forall k | 0 <= k < i :: CursorOk(gs[k], cursors[k]) && RestOk(gs[k], cursors[k], [])
    {
      var first := Advance(gs[i], Cursor(0, None, {}, None));
      StartRest(gs[i], first);
      cursors[i] := first;
    }
    var emitted: seq<Member> := [];
    while true
      invariant Visiting(gs, cursors[..], emitted)
      decreases AllMembers(gs) - (set m | m in emitted)
    {
      var next := SmallestCurrent(cursors);
      if next.None? {
        VisitDone(gs, cursors[..], emitted);
        return Ok(emitted);
      }
      var conflict := PassMember(gs, cursors, next.value, emitted);
      if conflict {
        return Err(InvalidState);
      }
      NewMember(gs, cursors[..], emitted, next.value);
      ghost var left := AllMembers(gs) - (set m | m in emitted);
      emitted := emitted + [next.value];
      assert AllMembers(gs) - (set m | m in emitted) == left - {next.value} && next.value in left;
    }
  }

  ghost function AllMembers(gs: seq<Group>): set<Member> {
    set i, m | 0 <= i < |gs| && m in gs[i].members :: m
  }

  lemma NewMember(gs: seq<Group>, cursors: seq<Cursor>, emitted: seq<Member>, m: Member)
    requires Visiting(gs, cursors, emitted + [m])
    ensures m !in emitted && m in AllMembers(gs)
  {
    var all := emitted + [m];
    forall i | 0 <= i < |emitted|
      ensures emitted[i] != m
    {
      assert Less(all[i].root, all[|emitted|].root);
    }
    assert m in all;
    var i :| 0 <= i < |gs| && LiveIn(gs[i], m);
  }

  /** When no cursor has a member left, everything live was delivered and agrees. */
  lemma VisitDone(gs: seq<Group>, cursors: seq<Cursor>, emitted: seq<Member>)
    requires Visiting(gs, cursors, emitted)
    requires forall i | 0 <= i < |gs| :: cursors[i].current.None?
    ensures !Conflict(gs)
    ensures forall m :: m in emitted <==> LiveSomewhere(gs, m)
  {
    forall m | LiveSomewhere(gs, m)
      ensures m in emitted
    {
      var i :| 0 <= i < |gs| && LiveIn(gs[i], m);
      assert RestOk(gs[i], cursors[i], emitted);
    }
    if Conflict(gs) {
      var a, b :| LiveSomewhere(gs, a) && LiveSomewhere(gs, b) && a.root == b.root && a != b;
      SameRoot(emitted, a, b);
    }
  }

  // ----- merged bitmaps -----

  /** The live bits of one page over all sources. */
  ghost function UnionLive(gs: seq<Group>, page: nat): set<nat> {
    set i, o | 0 <= i < |gs| && o in Offsets(gs[i].live, page) :: o
  }

  /** One term's bits over all sources, each masked by its own source's liveness. */
  ghost function UnionPosting(gs: seq<Group>, terms: seq<Bitmap>, page: nat): set<nat>
    requires |gs| == |terms|
  {
    set i, o | 0 <= i < |gs| && o in Offsets(terms[i], page) && o in Offsets(gs[i].live, page) :: o
  }

  /** The merged membership owns exactly the bits that are live in some source. */
  lemma MergedBits(gs: seq<Group>, base: nat, emitted: seq<Member>, page: nat)
    requires SourcesOk(gs) && forall i | 0 <= i < |gs| :: gs[i].base == base
    requires forall m :: m in emitted <==> LiveSomewhere(gs, m)
    ensures forall i | 0 <= i < |emitted| :: InGroup(base, emitted[i].root)
    ensures MemberBits(base, emitted, page) == UnionLive(gs, page)
  {
    hide GroupOk, LiveSomewhere, IsLive;
    forall i | 0 <= i < |emitted|
      ensures InGroup(base, emitted[i].root)
      ensures emitted[i].root.block == base + page ==> BitOf(emitted[i].root) in UnionLive(gs, page)
    {
      MemberIsUnion(gs, base, emitted[i], page);
    }
    forall o | o in UnionLive(gs, page)
      ensures o in MemberBits(base, emitted, page)
    {
      var m := UnionIsMember(gs, base, page, o);
      var i :| 0 <= i < |emitted| && emitted[i] == m;
      assert BitOf(emitted[i].root) == o;
    }
  }

  lemma MemberIsUnion(gs: seq<Group>, base: nat, m: Member, page: nat)
    requires SourcesOk(gs) && forall i | 0 <= i < |gs| :: gs[i].base == base
    requires LiveSomewhere(gs, m)
    ensures InGroup(base, m.root)
    ensures m.root.block == base + page ==> BitOf(m.root) in UnionLive(gs, page)
  {
    hide GroupOk;
    var k :| 0 <= k < |gs| && LiveIn(gs[k], m);
  }

  lemma UnionIsMember(gs: seq<Group>, base: nat, page: nat, o: nat) returns (m: Member)
    requires SourcesOk(gs) && forall i | 0 <= i < |gs| :: gs[i].base == base
    requires o in UnionLive(gs, page)
    ensures LiveSomewhere(gs, m) && m.root == Root(base + page, o + 1)
  {
    hide Ascending;
    var k :| 0 <= k < |gs| && o in Offsets(gs[k].live, page);
    LiveBitIsMember(gs[k], page, o);
    var j :| 0 <= j < |gs[k].members| && gs[k].members[j].root == Root(base + page, o + 1);
    m := gs[k].members[j];
    assert InGroup(base, m.root);
    assert LiveIn(gs[k], m);
  }

  /** The pages that hold a merged member, and their bits from every source's liveness. */
  method EncodeLiveness(gs: seq<Group>, base: nat, emitted: seq<Member>) returns (live: Bitmap)
    requires SourcesOk(gs) && forall i | 0 <= i < |gs| :: gs[i].base == base
    requires Ascending(emitted) && forall m :: m in emitted <==> LiveSomewhere(gs, m)
    ensures forall page :: Offsets(live, page) == UnionLive(gs, page)
    ensures GroupOk(Group(base, emitted, live))
    ensures forall m | m in emitted :: IsLive(Group(base, emitted, live), m)
  {
    live := map[];
    MergedBits(gs, base, emitted, 0);
    for page := 0 to GROUP_PAGES
      invariant forall p: nat :: p in live <==> p < page && MemberBits(base, emitted, p) != {}
      invariant forall p | p in live :: live[p] == UnionLive(gs, p)
    {
      MergedBits(gs, base, emitted, page);
      var all := PageOffsets(base, emitted, page);
      if all != {} {
        var bits := UnionPage(gs, page);
        live := live[page := bits];
      }
    }
    forall page: nat
      ensures Offsets(live, page) == UnionLive(gs, page)
      ensures page in live <==> MemberBits(base, emitted, page) != {}
      ensures MemberBits(base, emitted, page) == UnionLive(gs, page)
    {
      MergedBits(gs, base, emitted, page);
      NothingBeyond(base, emitted, page);
    }
    forall m | m in emitted
      ensures IsLive(Group(base, emitted, live), m)
    {
      OwnsBit(Group(base, emitted, live), m);
    }
  }

  lemma NothingBeyond(base: nat, members: seq<Member>, page: nat)
    requires forall i | 0 <= i < |members| :: InGroup(base, members[i].root)
    ensures page >= GROUP_PAGES ==> MemberBits(base, members, page) == {}
  {
  }

  method UnionPage(gs: seq<Group>, page: nat) returns (bits: set<nat>)
    ensures bits == UnionLive(gs, page)
  {
    bits := {};
    for i := 0 to |gs|
      invariant bits == set k, o | 0 <= k < i && o in Offsets(gs[k].live, page) :: o
    {
      bits := bits + Offsets(gs[i].live, page);
    }
  }

  /** One merged posting: only pages with a surviving bit are stored. */
  method EncodePosting(gs: seq<Group>, terms: seq<Bitmap>) returns (posting: Bitmap)
    requires |gs| == |terms| && forall i | 0 <= i < |terms| :: PagesInRange(terms[i])
    ensures forall page :: Offsets(posting, page) == UnionPosting(gs, terms, page)
    ensures forall page | page in posting :: posting[page] != {}
  {
    posting := map[];
    for page := 0 to GROUP_PAGES
      invariant forall p | p in posting :: p < page && posting[p] != {}
      invariant forall p: nat | p < page :: Offsets(posting, p) == UnionPosting(gs, terms, p)
    {
      var bits := PostingPage(gs, terms, page);
      if bits != {} {
        posting := posting[page := bits];
      }
    }
    forall page: nat
      ensures Offsets(posting, page) == UnionPosting(gs, terms, page)
    {
      if page >= GROUP_PAGES {
        assert UnionPosting(gs, terms, page) == {};
      }
    }
  }

  method PostingPage(gs: seq<Group>, terms: seq<Bitmap>, page: nat) returns (bits: set<nat>)
    requires |gs| == |terms|
    ensures bits == UnionPosting(gs, terms, page)
  {
    bits := {};
    for i := 0 to |gs|
      invariant bits == set k, o | 0 <= k < i && o in Offsets(terms[k], page) && o in Offsets(gs[k].live, page) :: o
    {
      bits := bits + Offsets(terms[i], page) * Offsets(gs[i].live, page);
    }
  }

  // ----- merging commutes with querying -----

  /** `segs[i]` is source `i` with its own complete postings for `terms` terms. */
  ghost predicate SameVocabulary(segs: seq<Segment>, terms: nat) {
    forall i | 0 <= i < |segs| :: |segs[i].terms| == terms
  }

  /** `m` is the merge: pointwise union of liveness, and of postings masked by liveness. */
  ghost predicate IsMerge(segs: seq<Segment>, m: Segment) {
    && SameVocabulary(segs, |m.terms|)
    && (forall page, o :: o in Offsets(m.live, page) <==> LiveAt(segs, page, o))
    && (forall t, page, o | 0 <= t < |m.terms| :: o in Offsets(m.terms[t], page) <==> PostedAt(segs, t, page, o))
  }

  ghost predicate LiveAt(segs: seq<Segment>, page: nat, o: nat) {
    exists i :: 0 <= i < |segs| && o in Offsets(segs[i].live, page)
  }

  ghost predicate PostedAt(segs: seq<Segment>, t: nat, page: nat, o: nat)
    requires forall i | 0 <= i < |segs| :: t < |segs[i].terms|
  {
    exists i :: 0 <= i < |segs| && o in Offsets(segs[i].live, page) && o in Offsets(segs[i].terms[t], page)
  }

  /** Two sources share a live coordinate and only the first has the term there. */
  ghost predicate Differ(segs: seq<Segment>, terms: nat, i: nat, j: nat, page: nat, o: nat, t: nat)
    requires SameVocabulary(segs, terms)
  {
    && i < |segs| && j < |segs| && t < terms
    && o in Offsets(segs[i].live, page) && o in Offsets(segs[j].live, page)
    && o in Offsets(segs[i].terms[t], page) && o !in Offsets(segs[j].terms[t], page)
  }

  /** Sources that share a live coordinate agree on its terms. */
  ghost predicate Agree(segs: seq<Segment>, terms: nat)
    requires SameVocabulary(segs, terms)
  {
    forall i: nat, j: nat, page: nat, o: nat, t: nat :: !Differ(segs, terms, i, j, page, o, t)
  }

  /** Some source answers the program at this coordinate. */
  ghost predicate AnsweredAt(segs: seq<Segment>, program: seq<Node>, n: nat, page: nat, o: nat, terms: nat)
    requires SameVocabulary(segs, terms) && WellFormed(program, terms) && n < |program|
  {
    exists i :: 0 <= i < |segs| && o in Answer(segs[i], program, n, page)
  }

  ghost predicate Commutes(segs: seq<Segment>, m: Segment, program: seq<Node>)
    requires SameVocabulary(segs, |m.terms|) && WellFormed(program, |m.terms|)
  {
    forall n, page, o | 0 <= n < |program| ::
      o in Answer(m, program, n, page) <==> AnsweredAt(segs, program, n, page, o, |m.terms|)
  }

  /** Where sources agree, a live coordinate posted in one of them is posted in all that have it. */
  lemma PostedEverywhere(segs: seq<Segment>, terms: nat, t: nat, page: nat, o: nat, i: nat)
    requires SameVocabulary(segs, terms) && Agree(segs, terms) && t < terms && i < |segs|
    requires o in Offsets(segs[i].live, page)
    ensures PostedAt(segs, t, page, o) <==> o in Offsets(segs[i].terms[t], page)
  {
    if PostedAt(segs, t, page, o) {
      var j: nat :| j < |segs| && o in Offsets(segs[j].live, page) && o in Offsets(segs[j].terms[t], page);
      assert !Differ(segs, terms, j, i, page, o, t);
    }
  }

  /** At a live coordinate the merged program takes the same value as in its source. */
  lemma {:induction false} MergedHolds(segs: seq<Segment>, m: Segment, program: seq<Node>, n: nat, page: nat, o: nat,
      i: nat)
    requires IsMerge(segs, m) && Agree(segs, |m.terms|) && WellFormed(program, |m.terms|) && n < |program|
    requires i < |segs| && o in Offsets(segs[i].live, page)
    ensures Holds(m.terms, program, n, page, o) <==> Holds(segs[i].terms, program, n, page, o)
    decreases n
  {
    assert NodeOk(program[n], n, |m.terms|);
    match program[n]
    case Term(t) =>
      PostedEverywhere(segs, |m.terms|, t, page, o, i);
    case All =>
    case Not(c) => MergedHolds(segs, m, program, c, page, o, i);
    case And(l, r) => MergedHolds(segs, m, program, l, page, o, i); MergedHolds(segs, m, program, r, page, o, i);
    case Or(l, r) => MergedHolds(segs, m, program, l, page, o, i); MergedHolds(segs, m, program, r, page, o, i);
    case Difference(l, r) => MergedHolds(segs, m, program, l, page, o, i); MergedHolds(segs, m, program, r, page, o, i);
  }

  /** Agreement makes every program, negation included, commute with merging. */
  lemma MergeCommutes(segs: seq<Segment>, m: Segment, program: seq<Node>)
    requires IsMerge(segs, m) && Agree(segs, |m.terms|) && WellFormed(program, |m.terms|)
    ensures Commutes(segs, m, program)
  {
    forall n, page, o | 0 <= n < |program|
      ensures o in Answer(m, program, n, page) <==> AnsweredAt(segs, program, n, page, o, |m.terms|)
    {
      if o in Answer(m, program, n, page) {
        assert LiveAt(segs, page, o);
        var i :| 0 <= i < |segs| && o in Offsets(segs[i].live, page);
        MergedHolds(segs, m, program, n, page, o, i);
        assert o in Answer(segs[i], program, n, page);
      }
      if AnsweredAt(segs, program, n, page, o, |m.terms|) {
        var i :| 0 <= i < |segs| && o in Answer(segs[i], program, n, page);
        assert LiveAt(segs, page, o);
        MergedHolds(segs, m, program, n, page, o, i);
      }
    }
  }

  /** One negated term already separates sources that disagree. */
  lemma DisagreementShows(segs: seq<Segment>, m: Segment, i: nat, j: nat, t: nat, page: nat, o: nat)
    requires IsMerge(segs, m) && i < |segs| && j < |segs| && t < |m.terms|
    requires o in Offsets(segs[i].live, page) && o in Offsets(segs[j].live, page)
    requires o in Offsets(segs[i].terms[t], page) && o !in Offsets(segs[j].terms[t], page)
    ensures WellFormed([Term(t), Not(0)], |m.terms|)
    ensures !Commutes(segs, m, [Term(t), Not(0)])
  {
    var program := [Term(t), Not(0)];
    assert PostedAt(segs, t, page, o) && LiveAt(segs, page, o);
    assert !Holds(segs[j].terms, program, 0, page, o);
    assert o in Answer(segs[j], program, 1, page);
    assert AnsweredAt(segs, program, 1, page, o, |m.terms|);
    assert Holds(m.terms, program, 0, page, o);
    assert o !in Answer(m, program, 1, page);
  }

  /** Merging commutes with every program exactly when the sources agree. */
  lemma CommutesIffAgree(segs: seq<Segment>, m: Segment)
    requires IsMerge(segs, m)
    ensures Agree(segs, |m.terms|) <==> forall program | WellFormed(program, |m.terms|) :: Commutes(segs, m, program)
  {
    hide Commutes, WellFormed, LiveAt, PostedAt, Agree;
    if Agree(segs, |m.terms|) {
      forall program | WellFormed(program, |m.terms|)
        ensures Commutes(segs, m, program)
      {
        MergeCommutes(segs, m, program);
      }
    } else {
      var t := Disagreement(segs, m);
      assert WellFormed([Term(t), Not(0)], |m.terms|);
    }
  }

  lemma Disagreement(segs: seq<Segment>, m: Segment) returns (t: nat)
    requires IsMerge(segs, m) && !Agree(segs, |m.terms|)
    ensures WellFormed([Term(t), Not(0)], |m.terms|) && !Commutes(segs, m, [Term(t), Not(0)])
  {
    hide Commutes, WellFormed, LiveAt, PostedAt, Offsets;
    var i: nat, j: nat, page: nat, o: nat, term: nat :| Differ(segs, |m.terms|, i, j, page, o, term);
    t := term;
    DisagreementShows(segs, m, i, j, t, page, o);
  }

  /**
   The whole merge: membership by the k-way visit, then liveness and every posting. The
   result is a valid group whose query view is the merge of the source views.
   */
  method Merge(gs: seq<Group>, base: nat, postings: seq<seq<Bitmap>>, terms: nat)
      returns (r: Result<(Group, Segment), Error>)
    requires SourcesOk(gs) && forall i | 0 <= i < |gs| :: gs[i].base == base
    requires |postings| == |gs| && forall i | 0 <= i < |gs| :: |postings[i]| == terms
    requires forall i, t | 0 <= i < |gs| && 0 <= t < terms :: PagesInRange(postings[i][t])
    ensures r.Ok? <==> !Conflict(gs)
    ensures r.Ok? ==> GroupOk(r.value.0) && forall m :: m in r.value.0.members <==> LiveSomewhere(gs, m)
    ensures r.Ok? ==> forall m | m in r.value.0.members :: IsLive(r.value.0, m)
    ensures r.Ok? ==> r.value.1.live == r.value.0.live
    ensures r.Ok? ==> IsMerge(Views(gs, postings), r.value.1)
  {
    hide SourcesOk, GroupOk, Conflict, Ascending, LiveSomewhere, PagesInRange, IsMerge, UnionLive, UnionPosting;
    var visited := Visit(gs);
    if visited.Err? {
      return Err(visited.error);
    }
    var live := EncodeLiveness(gs, base, visited.value);
    var merged: seq<Bitmap> := [];
    for t := 0 to terms
      invariant |merged| == t
      invariant forall k, page: nat | 0 <= k < t :: Offsets(merged[k], page) ==
                  UnionPosting(gs, Column(postings, k, terms), page)
    {
      var posting := EncodePosting(gs, Column(postings, t, terms));
      merged := merged + [posting];
    }
    var view := Segment(base, live, merged);
    ViewsMerge(gs, postings, terms, view);
    r := Ok((Group(base, visited.value, live), view));
  }

  function Column(postings: seq<seq<Bitmap>>, t: nat, terms: nat): (r: seq<Bitmap>)
    requires t < terms && forall i | 0 <= i < |postings| :: |postings[i]| == terms
    ensures |r| == |postings| && forall i | 0 <= i < |r| :: r[i] == postings[i][t]
  {
    seq(|postings|, i requires 0 <= i < |postings| => postings[i][t])
  }

  /** Each source as the query evaluator sees it. */
  function Views(gs: seq<Group>, postings: seq<seq<Bitmap>>): (r: seq<Segment>)
    requires |postings| == |gs|
    ensures |r| == |gs| && forall i | 0 <= i < |gs| :: r[i] == Segment(gs[i].base, gs[i].live, postings[i])
  {
    seq(|gs|, i requires 0 <= i < |gs| => Segment(gs[i].base, gs[i].live, postings[i]))
  }

  lemma ViewsMerge(gs: seq<Group>, postings: seq<seq<Bitmap>>, terms: nat, view: Segment)
    requires |postings| == |gs| && forall i | 0 <= i < |gs| :: |postings[i]| == terms
    requires |view.terms| == terms
    requires forall page :: Offsets(view.live, page) == UnionLive(gs, page)
    requires forall t, page: nat | 0 <= t < terms :: Offsets(view.terms[t], page) ==
               UnionPosting(gs, Column(postings, t, terms), page)
    ensures IsMerge(Views(gs, postings), view)
  {
    var segs := Views(gs, postings);
    forall page, o
      ensures o in Offsets(view.live, page) <==> LiveAt(segs, page, o)
    {
      assert o in Offsets(view.live, page) <==> o in UnionLive(gs, page);
      if LiveAt(segs, page, o) {
        var i :| 0 <= i < |segs| && o in Offsets(segs[i].live, page);
        assert o in Offsets(gs[i].live, page);
      }
      if o in UnionLive(gs, page) {
        var i :| 0 <= i < |gs| && o in Offsets(gs[i].live, page);
        assert o in Offsets(segs[i].live, page);
      }
    }
    forall t, page, o | 0 <= t < terms
      ensures o in Offsets(view.terms[t], page) <==> PostedAt(segs, t, page, o)
    {
      var column := Column(postings, t, terms);
      assert o in Offsets(view.terms[t], page) <==> o in UnionPosting(gs, column, page);
      if PostedAt(segs, t, page, o) {
        var i :| 0 <= i < |segs| && o in Offsets(segs[i].live, page) && o in Offsets(segs[i].terms[t], page);
        assert o in Offsets(gs[i].live, page) && o in Offsets(column[i], page);
      }
      if o in UnionPosting(gs, column, page) {
        var i :| 0 <= i < |gs| && o in Offsets(column[i], page) && o in Offsets(gs[i].live, page);
        assert o in Offsets(segs[i].live, page) && o in Offsets(segs[i].terms[t], page);
      }
    }
  }
}
