/** Sorted owner membership of one segment group, and what retirement takes from its answers. */
module GroupedMembers {
  import opened Outcomes
  import opened GroupedQuery
  import Ordering

  const GROUP_BITS: nat := 512

  /** A heap coordinate; offsets start at one and bit `offset - 1` stands for them. */
  datatype Root = Root(block: nat, offset: nat)

  datatype Member = Member(root: Root, incarnation: nat)

  predicate Less(a: Root, b: Root) {
    a.block < b.block || (a.block == b.block && a.offset < b.offset)
  }

  predicate Ascending(members: seq<Member>) {
    forall i, j | 0 <= i < j < |members| :: Less(members[i].root, members[j].root)
  }

  /** One immutable owner map and one shared, clear-only liveness bitmap. */
  datatype Group = Group(base: nat, members: seq<Member>, live: Bitmap)

  predicate InGroup(base: nat, r: Root) {
    base <= r.block < base + GROUP_PAGES && 0 < r.offset <= GROUP_BITS
  }

  function PageOf(base: nat, r: Root): nat
    requires InGroup(base, r)
  {
    r.block - base
  }

  function BitOf(r: Root): nat {
    if r.offset == 0 then 0 else r.offset - 1
  }

  /** The bits of the members on one page. */
  ghost function MemberBits(base: nat, members: seq<Member>, page: nat): set<nat>
    requires forall i | 0 <= i < |members| :: InGroup(base, members[i].root)
  {
    set i | 0 <= i < |members| && members[i].root.block == base + page :: BitOf(members[i].root)
  }

  /** A group whose summary and live bits are those of its members, as an opened one is. */
  ghost predicate GroupOk(g: Group) {
    && Ascending(g.members)
    && (forall i | 0 <= i < |g.members| :: InGroup(g.base, g.members[i].root))
    && (forall page :: page in g.live <==> MemberBits(g.base, g.members, page) != {})
    && (forall page | page in g.live :: g.live[page] <= MemberBits(g.base, g.members, page))
  }

  predicate IsLive(g: Group, m: Member) {
    InGroup(g.base, m.root) && BitOf(m.root) in Offsets(g.live, PageOf(g.base, m.root))
  }

  /** Retirement is only allowed to clear bits that a member owns. */
  lemma LiveBitIsMember(g: Group, page: nat, bit: nat)
    requires GroupOk(g) && bit in Offsets(g.live, page)
    ensures exists i :: 0 <= i < |g.members| && g.members[i].root == Root(g.base + page, bit + 1)
  {
    assert bit in MemberBits(g.base, g.members, page);
    var i :| 0 <= i < |g.members| && g.members[i].root.block == g.base + page && BitOf(g.members[i].root) == bit;
    assert g.members[i].root == Root(g.base + page, bit + 1);
  }

  /** The position of the first member not before `root`, by binary search. */
  method LowerBound(members: seq<Member>, root: Root) returns (index: nat)
    requires Ascending(members)
    ensures index <= |members|
    ensures forall i | 0 <= i < |members| :: Less(members[i].root, root) <==> i < index
  {
    var before := (m: Member) => Less(m.root, root);
    assert Ordering.Partitioned(members, before) by {
      forall i, j | 0 <= i < j < |members| && before(members[j]) ensures before(members[i]) {
        assert Less(members[i].root, members[j].root);
      }
    }
    index := Ordering.LowerBound(members, before);
    assert forall i | 0 <= i < |members| :: before(members[i]) <==> i < index;
  }

  /** The single incarnation assigned to a coordinate. */
  method Find(members: seq<Member>, root: Root) returns (r: Option<Member>)
    requires Ascending(members)
    ensures r.Some? ==> r.value in members && r.value.root == root
    ensures r.None? ==> forall m | m in members :: m.root != root
  {
    var index := LowerBound(members, root);
    if index < |members| && members[index].root == root {
      return Some(members[index]);
    }
    r := None;
  }

  /** The offsets one page's members occupy, read as one contiguous run. */
  method PageOffsets(base: nat, members: seq<Member>, page: nat) returns (bits: set<nat>)
    requires Ascending(members)
    requires forall i | 0 <= i < |members| :: InGroup(base, members[i].root)
    ensures bits == MemberBits(base, members, page)
  {
    var block := base + page;
    var start := LowerBound(members, Root(block, 0));
    var index := start;
    bits := {};
    while index < |members| && members[index].root.block == block
      invariant start <= index <= |members|
      invariant forall i | start <= i < index :: members[i].root.block == block
      invariant bits == set i | start <= i < index :: BitOf(members[i].root)
    {
      bits := bits + {BitOf(members[index].root)};
      index := index + 1;
    }
    if index < |members| {
      assert forall i | index <= i < |members| :: members[i].root.block > block by {
        forall i | index <= i < |members|
          ensures members[i].root.block > block
        {
          assert !Less(members[index].root, Root(block, 0));
          assert i > index ==> Less(members[index].root, members[i].root);
        }
      }
    }
    assert forall i | 0 <= i < |members| && members[i].root.block == block :: start <= i < index;
  }

  lemma SameRoot(members: seq<Member>, a: Member, b: Member)
    requires Ascending(members) && a in members && b in members && a.root == b.root
    ensures a == b
  {
    var i :| 0 <= i < |members| && members[i] == a;
    var j :| 0 <= j < |members| && members[j] == b;
    assert i == j;
  }

  lemma OwnsBit(g: Group, m: Member)
    requires GroupOk(g) && m in g.members
    ensures InGroup(g.base, m.root) && PageOf(g.base, m.root) in g.live
    ensures BitOf(m.root) in MemberBits(g.base, g.members, PageOf(g.base, m.root))
  {
    var i :| 0 <= i < |g.members| && g.members[i] == m;
    assert BitOf(m.root) in MemberBits(g.base, g.members, PageOf(g.base, m.root));
  }

  // ----- batch retirement -----

  /** The bits of one page that survive an approval predicate. */
  function Kept(base: nat, page: nat, bits: set<nat>, removable: Root -> bool): (r: set<nat>)
    ensures r <= bits
  {
    set b | b in bits && !removable(Root(base + page, b + 1))
  }

  /** How many bits of the pages below `limit` do not survive. */
  function CountCleared(base: nat, live: Bitmap, removable: Root -> bool, limit: nat): nat {
    if limit == 0 then 0
    else
      CountCleared(base, live, removable, limit - 1)
      + |Offsets(live, limit - 1) - Kept(base, limit - 1, Offsets(live, limit - 1), removable)|
  }

  /** Every answer loses exactly the approved roots, for every program and node. */
  lemma RetireRemovesExactly(seg: Segment, after: Bitmap, removable: Root -> bool, program: seq<Node>, n: nat,
      page: nat)
    requires n < |program| && WellFormed(program, |seg.terms|)
    requires after.Keys == seg.live.Keys
    requires forall p | p in seg.live :: after[p] == Kept(seg.base, p, seg.live[p], removable)
    ensures Answer(seg.(live := after), program, n, page)
              == set o | o in Answer(seg, program, n, page) && !removable(Root(seg.base + page, o + 1))
  {
    var seg' := seg.(live := after);
    forall o
      ensures o in Answer(seg', program, n, page) <==>
                o in Answer(seg, program, n, page) && !removable(Root(seg.base + page, o + 1))
    {
      assert o in Offsets(after, page) <==> o in Offsets(seg.live, page) && !removable(Root(seg.base + page, o + 1));
    }
  }
}
