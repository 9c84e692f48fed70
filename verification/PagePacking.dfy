/** Filling every page before the next one is begun uses the fewest pages. */
module PagePacking {
  import opened Outcomes
  import opened PostingPages
  import opened PostingSteps
  import opened CompactionFacts
  import opened CompactionAccounts
  import PostingWork
  import Varints

  // ----- part of a page fits where the whole page fits -----

  lemma {:induction false} LengthGrows(x: nat, y: nat)
    requires x <= y
    ensures Varints.VarLength(x) <= Varints.VarLength(y)
    decreases x
  {
    Varints.VarLengthIsLength(x);
    Varints.VarLengthIsLength(y);
    if x >= 128 {
      LengthGrows(x / 128, y / 128);
      Varints.VarLengthIsLength(x / 128);
      Varints.VarLengthIsLength(y / 128);
    }
  }

  lemma LengthsAdd(a: nat, b: nat)
    ensures Varints.VarLength(a + b) <= Varints.VarLength(a) + Varints.VarLength(b)
  {
    var larger := if a < b then b else a;
    Varints.VarLengthIsLength(a);
    Varints.VarLengthIsLength(b);
    Varints.VarLengthIsLength(a + b);
    if a + b >= 128 {
      Varints.VarLengthIsLength((a + b) / 128);
      LengthGrows((a + b) / 128, larger);
    }
  }

  /** Written in full, a reference is no longer than as a difference together with the one before it. */
  lemma FullIsShort(a: OwnerRef, b: OwnerRef)
    requires Before(a, b)
    ensures RefBytes(b, None) <= RefBytes(a, None) + RefBytes(b, Some(a))
  {
    hide Varints.VarLength;
    LengthsAdd(a.page, b.page - a.page);
    LengthsAdd(a.incarnation, b.incarnation - a.incarnation);
    if a.page == b.page {
      LengthsAdd(a.slot, b.slot - a.slot);
    }
  }

  lemma {:induction false} WithoutFirst(refs: seq<OwnerRef>, direct: bool)
    requires refs != [] && Sorted(refs)
    ensures PageBytes(refs[1..], direct) <= PageBytes(refs, direct)
    decreases |refs|
  {
    hide RefBytes;
    var rest, init := refs[1..], refs[..|refs| - 1];
    if |refs| == 2 {
      FullIsShort(refs[0], refs[1]);
      assert init[..0] == [] && rest[..0] == [];
    } else if |refs| > 2 {
      WithoutFirst(init, direct);
      assert rest[..|rest| - 1] == init[1..];
      assert LastOf(init[1..]) == LastOf(init);
    }
  }

  lemma {:induction false} PrefixFits(refs: seq<OwnerRef>, j: nat, direct: bool)
    requires j <= |refs|
    ensures PageBytes(refs[..j], direct) <= PageBytes(refs, direct)
    decreases |refs|
  {
    if j == |refs| {
      assert refs[..j] == refs;
    } else {
      var init := refs[..|refs| - 1];
      PrefixFits(init, j, direct);
      assert init[..j] == refs[..j];
    }
  }

  lemma {:induction false} PartFits(refs: seq<OwnerRef>, i: nat, j: nat, direct: bool)
    requires i <= j <= |refs| && Sorted(refs)
    ensures PageBytes(refs[i..j], direct) <= PageBytes(refs, direct)
    decreases i
  {
    if i == 0 {
      PrefixFits(refs, j, direct);
      assert refs[0..j] == refs[..j];
    } else {
      PartFits(refs, i - 1, j, direct);
      var part := refs[i - 1..j];
      WithoutFirst(part, direct);
      assert part[1..] == refs[i..j];
    }
  }

  // ----- cuts of one stream -----

  /** Every piece fits on a page. */
  ghost predicate Fitting(cut: seq<seq<OwnerRef>>, direct: bool) {
    forall i | 0 <= i < |cut| :: PageBytes(cut[i], direct) <= CAPACITY
  }

  /** Piece `i` had no room for the first reference of the next. */
  ghost predicate Full(cut: seq<seq<OwnerRef>>, i: nat, direct: bool) {
    i + 1 < |cut| && cut[i + 1] != [] && PageBytes(cut[i] + [cut[i + 1][0]], direct) > CAPACITY
  }

  ghost predicate Greedy(cut: seq<seq<OwnerRef>>, direct: bool) {
    && (forall i | 0 <= i < |cut| :: cut[i] != [])
    && (forall i: nat | i < |cut| - 1 :: Full(cut, i, direct))
  }

  lemma {:induction false} ConcatSplits(cut: seq<seq<OwnerRef>>, n: nat)
    requires n <= |cut|
    ensures PostingWork.Concat(cut) == PostingWork.Concat(cut[..n]) + PostingWork.Concat(cut[n..])
    decreases |cut|
  {
    if n == |cut| {
      assert cut[..n] == cut && cut[n..] == [];
    } else {
      var m := |cut| - 1;
      ConcatSplits(cut[..m], n);
      assert cut[..m][..n] == cut[..n] && cut[..m][n..] == cut[n..][..m - n];
    }
  }

  lemma ConcatNext(cut: seq<seq<OwnerRef>>, n: nat)
    requires n < |cut|
    ensures PostingWork.Concat(cut[..n + 1]) == PostingWork.Concat(cut[..n]) + cut[n]
    ensures PostingWork.Concat(cut[..n + 1]) <= PostingWork.Concat(cut)
  {
    assert cut[..n + 1][..n] == cut[..n];
    ConcatSplits(cut, n + 1);
  }

  lemma SortedPart(all: seq<OwnerRef>, i: nat, j: nat)
    requires Sorted(all) && i <= j <= |all|
    ensures Sorted(all[i..j])
  {
    var part := all[i..j];
    forall x, y | 0 <= x < y < |part| ensures Before(part[x], part[y]) {
      assert part[x] == all[i + x] && part[y] == all[i + y];
    }
  }

  lemma PartOfPart(all: seq<OwnerRef>, start: nat, end: nat, i: nat, j: nat)
    requires start <= i <= j <= end <= |all|
    ensures all[start..end][i - start..j - start] == all[i..j]
  {
    var part := all[start..end];
    assert forall k | 0 <= k < |part| :: part[k] == all[start + k];
    assert part[i - start..j - start] == all[i..j];
  }

  lemma OneFurther(all: seq<OwnerRef>, i: nat, j: nat)
    requires i <= j < |all|
    ensures all[i..j + 1] == all[i..j] + [all[j]]
  {
  }

  /** A piece of another cut that went further would hold a full piece and one reference more. */
  lemma NoPieceGoesFurther(all: seq<OwnerRef>, start: nat, end: nat, from: nat, to: nat, direct: bool)
    requires Sorted(all) && start <= from <= to < |all| && start <= end <= |all|
    requires PageBytes(all[start..end], direct) <= CAPACITY
    requires PageBytes(all[from..to] + [all[to]], direct) > CAPACITY
    ensures end <= to
  {
    hide PageBytes, Sorted;
    if to < end {
      SortedPart(all, start, end);
      PartFits(all[start..end], from - start, to + 1 - start, direct);
      PartOfPart(all, start, end, from, to + 1);
      OneFurther(all, from, to);
    }
  }

  /** After as many pieces, no cut into fitting pieces is further along the stream. */
  lemma {:induction false} GreedyLeads(greedy: seq<seq<OwnerRef>>, cut: seq<seq<OwnerRef>>, n: nat, direct: bool)
    requires Greedy(greedy, direct) && Fitting(cut, direct)
    requires PostingWork.Concat(greedy) == PostingWork.Concat(cut) && Sorted(PostingWork.Concat(cut))
    requires n <= |greedy| && n <= |cut|
    ensures |PostingWork.Concat(cut[..n])| <= |PostingWork.Concat(greedy[..n])|
    decreases n
  {
    hide PageBytes, Sorted;
    if n > 0 {
      var m := n - 1;
      GreedyLeads(greedy, cut, m, direct);
      ConcatNext(greedy, m);
      ConcatNext(cut, m);
      var all := PostingWork.Concat(cut);
      if n < |greedy| {
        assert Full(greedy, m, direct);
        ConcatNext(greedy, n);
        var a, b := PostingWork.Concat(cut[..m]), PostingWork.Concat(greedy[..m]);
        assert PostingWork.Concat(greedy[..n + 1]) == b + greedy[m] + greedy[n];
        var end, to := |a| + |cut[m]|, |b| + |greedy[m]|;
        assert all[to] == greedy[n][0] && all[|b|..to] == greedy[m];
        assert all[|a|..end] == cut[m];
        NoPieceGoesFurther(all, |a|, end, |b|, to, direct);
      } else {
        assert greedy[..n] == greedy;
      }
    }
  }

  lemma LaterIsLonger(cut: seq<seq<OwnerRef>>, n: nat)
    requires n < |cut| && cut[n] != []
    ensures |PostingWork.Concat(cut[..n])| < |PostingWork.Concat(cut)|
  {
    ConcatNext(cut, n);
  }

  /** No cut of the same ordered stream into pages that fit has fewer pages. */
  lemma GreedyIsFewest(greedy: seq<seq<OwnerRef>>, cut: seq<seq<OwnerRef>>, direct: bool)
    requires Greedy(greedy, direct) && Fitting(cut, direct)
    requires PostingWork.Concat(greedy) == PostingWork.Concat(cut) && Sorted(PostingWork.Concat(cut))
    ensures |greedy| <= |cut|
  {
    hide PageBytes, Sorted, PostingWork.Concat, Fitting;
    if |cut| < |greedy| {
      var n := |cut|;
      assert cut[..n] == cut;
      LaterIsLonger(greedy, n);
      GreedyLeads(greedy, cut, n, direct);
    }
  }

  lemma PackedIsGreedy(p: Pages, bs: seq<nat>, direct: bool)
    requires Packed(p, bs, direct) && forall i | 0 <= i < |bs| :: bs[i] < |p| && p[bs[i]].Posting?
    ensures Greedy(PostingWork.PageBatches(p, bs), direct)
  {
    hide PageBytes;
    var greedy := PostingWork.PageBatches(p, bs);
    forall i | 0 <= i < |bs| ensures greedy[i] != [] {
      assert FilledPage(p, bs[i], direct);
    }
    forall i: nat | i < |bs| - 1 ensures Full(greedy, i, direct) {
      assert Followed(p, bs, i, direct);
    }
  }

  /** The pages a rewrite leaves behind are the fewest that can hold its references. */
  lemma PackedIsFewest(p: Pages, bs: seq<nat>, cut: seq<seq<OwnerRef>>, direct: bool)
    requires Packed(p, bs, direct) && Sorted(AllRefsOf(p, bs))
    requires PostingWork.Concat(cut) == AllRefsOf(p, bs) && Fitting(cut, direct)
    ensures |bs| <= |cut|
  {
    hide PageBytes, Sorted, AllRefs, PostingWork.Concat, Packed, Fitting, Greedy;
    PackedPostings(p, bs, direct);
    PackedIsGreedy(p, bs, direct);
    PostingWork.ConcatPages(p, bs);
    GreedyIsFewest(PostingWork.PageBatches(p, bs), cut, direct);
  }
}
