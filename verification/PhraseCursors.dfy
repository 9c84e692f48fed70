/** Phrase matching over sorted position lists with cursors that only move forward. */
module PhraseCursors {
  import opened Outcomes
  import opened Varints
  import opened PositionStreams

  const MAX_TERMS: nat := 64

  type Lists = seq<Option<seq<nat>>>

  ghost predicate ListsOk(lists: Lists) {
    forall i | 0 <= i < |lists| && lists[i].Some? :: Steps(lists[i].value, 0, true)
  }

  /** Every term occurs at its place after `start`. */
  ghost predicate At(lists: Lists, start: nat) {
    forall i | 0 <= i < |lists| :: Occurs(lists, i, start)
  }

  ghost predicate Occurs(lists: Lists, i: nat, start: nat) {
    i < |lists| && lists[i].Some? && start + i in lists[i].value
  }

  ghost predicate Somewhere(lists: Lists) {
    exists start: nat :: At(lists, start)
  }

  // ----- cursors -----

  /** How many values of a list have been given up. */
  function Dropped(cursor: nat, current: Option<nat>): int {
    if current.Some? then cursor - 1 else cursor
  }

  /** The cursor is within its list, holds its current value, and gave up only values below `low`. */
  ghost predicate CursorOk(list: seq<nat>, cursor: nat, current: Option<nat>, low: int) {
    && cursor <= |list|
    && (current.Some? ==> cursor > 0 && current.value == list[cursor - 1])
    && (forall j | 0 <= j < Dropped(cursor, current) :: list[j] < low)
  }

  /** Moves one cursor up to `target`: it hits exactly when the list has the target. */
  method Advance(list: seq<nat>, cursor: nat, current: Option<nat>, target: nat)
      returns (cursor': nat, current': Option<nat>, hit: bool)
    requires Steps(list, 0, true) && CursorOk(list, cursor, current, target)
    ensures CursorOk(list, cursor', current', target) && cursor <= cursor'
    ensures hit <==> target in list
  {
    StepsIncrease(list, 0, true);
    cursor', current' := cursor, current;
    while true
      invariant CursorOk(list, cursor', current', target) && cursor <= cursor'
      decreases |list| - cursor', current'.Some?
    {
      var value := current';
      if value.None? {
        if cursor' < |list| {
          value := Some(list[cursor']);
          cursor' := cursor' + 1;
        }
      }
      current' := value;
      if value.None? {
        assert forall j | 0 <= j < |list| :: list[j] < target;
        return cursor', current', false;
      }
      if value.value == target {
        return cursor', current', true;
      }
      if value.value > target {
        forall j | 0 <= j < |list| ensures list[j] != target {
          assert j < cursor' - 1 ==> list[j] < target;
          assert j > cursor' - 1 ==> list[cursor' - 1] < list[j];
        }
        return cursor', current', false;
      }
      current' := None;
    }
  }

  lemma LowerLater(list: seq<nat>, cursor: nat, current: Option<nat>, low: int, high: int)
    requires CursorOk(list, cursor, current, low) && low <= high
    ensures CursorOk(list, cursor, current, high)
  {
  }

  /** All cursors but the anchor's stand where starts from `low` on can use them. */
  ghost predicate CursorsOk(lists: Lists, cursors: seq<nat>, current: seq<Option<nat>>, low: nat) {
    && |lists| <= |cursors| && |lists| <= |current|
    && (forall i | 0 <= i < |lists| :: lists[i].Some? && CursorOk(lists[i].value, cursors[i], current[i], low + i))
  }

  /** Tries one start; may leave some cursors behind, never ahead. */
  method TryStart(lists: Lists, cursors: array<nat>, current: array<Option<nat>>, anchor: nat, start: nat)
      returns (r: Option<bool>)
    requires ListsOk(lists) && anchor < |lists| && Occurs(lists, anchor, start)
    requires CursorsOk(lists, cursors[..], current[..], start)
    modifies cursors, current
    ensures CursorsOk(lists, cursors[..], current[..], start)
    ensures r.Some? ==> r.value == At(lists, start)
    ensures r.None? ==> start + |lists| > LIMIT
  {
    hide Steps, CursorOk;
    var i := 0;
    while i < |lists|
      invariant i <= |lists| && CursorsOk(lists, cursors[..], current[..], start)
      invariant forall k | 0 <= k < i :: Occurs(lists, k, start)
    {
      if i != anchor {
        if start + i >= LIMIT {
          return None;
        }
        ghost var c0, v0 := cursors[..], current[..];
        assert CursorOk(lists[i].value, c0[i], v0[i], start + i);
        var c, v, hit := Advance(lists[i].value, cursors[i], current[i], start + i);
        cursors[i], current[i] := c, v;
        assert cursors[..] == c0[i := c] && current[..] == v0[i := v];
        if !hit {
          assert !Occurs(lists, i, start);
          return Some(false);
        }
      }
      i := i + 1;
    }
    return Some(true);
  }

  method Shortest(lists: Lists) returns (anchor: nat)
    requires lists != [] && forall i | 0 <= i < |lists| :: lists[i].Some?
    ensures anchor < |lists| && forall i | 0 <= i < |lists| :: |lists[anchor].value| <= |lists[i].value|
  {
    anchor := 0;
    var i := 1;
    while i < |lists|
      invariant 1 <= i <= |lists| && anchor < i && forall k | 0 <= k < i :: |lists[anchor].value| <= |lists[k].value|
    {
      if |lists[i].value| < |lists[anchor].value| {
        anchor := i;
      }
      i := i + 1;
    }
  }

  /** Some term would have to stand beyond the 32-bit range. */
  lemma TooFar(lists: Lists, start: nat)
    requires ListsOk(lists) && lists != [] && start + |lists| > LIMIT
    ensures !At(lists, start)
  {
    var i := |lists| - 1;
    if lists[i].Some? {
      StepsIncrease(lists[i].value, 0, true);
    }
    assert !Occurs(lists, i, start);
  }

  lemma Absent(lists: Lists, k: nat)
    requires k < |lists| && lists[k].None?
    ensures !Somewhere(lists)
  {
    forall start: nat ensures !At(lists, start) {
      assert !Occurs(lists, k, start);
    }
  }

  /** Walks the anchor's positions once; each other list is walked at most once in all. */
  method MatchLists(lists: Lists) returns (r: bool)
    requires ListsOk(lists) && 0 < |lists| <= MAX_TERMS
    ensures r == Somewhere(lists)
  {
    hide Steps, CursorsOk, CursorOk, Occurs;
    var k := 0;
    while k < |lists|
      invariant k <= |lists| && forall i | 0 <= i < k :: lists[i].Some?
    {
      if lists[k].None? {
        Absent(lists, k);
        return false;
      }
      k := k + 1;
    }
    var anchor := Shortest(lists);
    var first := lists[anchor].value;
    StepsIncrease(first, 0, true);
    var cursors := new nat[MAX_TERMS](_ => 0);
    var current := new Option<nat>[MAX_TERMS](_ => None);
    NothingDropped(lists, cursors[..], current[..]);
    var n := 0;
    ghost var low: nat := 0;
    while n < |first|
      invariant n <= |first| && fresh(cursors) && fresh(current)
      invariant CursorsOk(lists, cursors[..], current[..], low)
      invariant forall j | n <= j < |first| :: low + anchor <= first[j] || first[j] < anchor
      invariant forall start: nat | start + anchor in first[..n] :: !At(lists, start)
    {
      assert first[..n + 1] == first[..n] + [first[n]];
      if first[n] >= anchor {
        var start := first[n] - anchor;
        OccursAt(lists, anchor, n, start);
        RaiseAll(lists, cursors[..], current[..], low, start);
        low := start;
        var hit := TryStart(lists, cursors, current, anchor, start);
        if hit.None? {
          NoneFrom(lists, anchor, n, start);
          return false;
        }
        if hit.value {
          assert At(lists, start);
          return true;
        }
      }
      n := n + 1;
    }
    assert first[..n] == first;
    NotAnywhere(lists, anchor);
    return false;
  }

  lemma NothingDropped(lists: Lists, cursors: seq<nat>, current: seq<Option<nat>>)
    requires |lists| <= |cursors| == |current| && forall i | 0 <= i < |lists| :: lists[i].Some?
    requires forall i | 0 <= i < |cursors| :: cursors[i] == 0 && current[i].None?
    ensures CursorsOk(lists, cursors, current, 0)
  {
  }

  lemma OccursAt(lists: Lists, anchor: nat, n: nat, start: nat)
    requires anchor < |lists| && lists[anchor].Some? && n < |lists[anchor].value| &&
               lists[anchor].value[n] == start + anchor
    ensures Occurs(lists, anchor, start)
  {
  }

  lemma NotAnywhere(lists: Lists, anchor: nat)
    requires anchor < |lists| && lists[anchor].Some? && forall start: nat | start + anchor in lists[anchor].value ::
               !At(lists, start)
    ensures !Somewhere(lists)
  {
    forall start: nat ensures !At(lists, start) {
      assert At(lists, start) ==> Occurs(lists, anchor, start);
    }
  }

  lemma RaiseAll(lists: Lists, cursors: seq<nat>, current: seq<Option<nat>>, low: nat, high: nat)
    requires CursorsOk(lists, cursors, current, low) && low <= high
    ensures CursorsOk(lists, cursors, current, high)
  {
    forall i | 0 <= i < |lists| ensures CursorOk(lists[i].value, cursors[i], current[i], high + i) {
      LowerLater(lists[i].value, cursors[i], current[i], low + i, high + i);
    }
  }

  /** Once a target leaves the 32-bit range, no earlier or later start can match. */
  lemma NoneFrom(lists: Lists, anchor: nat, n: nat, start: nat)
    requires ListsOk(lists) && anchor < |lists| && lists[anchor].Some? && n < |lists[anchor].value|
    requires lists[anchor].value[n] == start + anchor && start + |lists| > LIMIT
    requires forall s: nat | s + anchor in lists[anchor].value[..n] :: !At(lists, s)
    ensures !Somewhere(lists)
  {
    var first := lists[anchor].value;
    StepsIncrease(first, 0, true);
    forall s: nat ensures !At(lists, s) {
      if Occurs(lists, anchor, s) {
        var j :| 0 <= j < |first| && first[j] == s + anchor;
        if j < n {
          assert first[..n][j] == s + anchor;
        } else {
          assert first[n] <= first[j];
          TooFar(lists, s);
        }
      }
    }
  }
}
