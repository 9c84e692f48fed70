/** Whole runs of the guarded count: exact results, no leaks, no deadlock, and what breaks without it. */
module CountRuns {
  import opened Outcomes
  import opened CountGuard

  ghost predicate IsRun(states: seq<State>, actions: seq<Action>, mode: Mode) {
    && |states| == |actions| + 1
    && (forall k | 0 <= k < |actions| ::
          Enabled(states[k], actions[k], mode) && states[k + 1] == Apply(states[k], actions[k], mode))
  }

  lemma {:induction false} InvAlways(states: seq<State>, actions: seq<Action>, k: nat)
    requires IsRun(states, actions, Correct) && Initial(states[0]) && k < |states|
    ensures Inv(states[k])
    decreases k
  {
    if k > 0 {
      InvAlways(states, actions, k - 1);
      StepKeepsInv(states[k - 1], actions[k - 1]);
    }
  }

  /** Reader `i` began in step `j` and is to count what its snapshot saw of the index then. */
  ghost predicate BeganIn(states: seq<State>, actions: seq<Action>, j: nat, i: nat, expected: set<Root>)
    requires |states| == |actions| + 1
  {
    && j < |actions| && actions[j].Begin? && actions[j].i == i
    && expected == actions[j].snapshot * states[j].members
  }

  lemma StepKeepsExpected(s: State, a: Action, i: nat)
    requires Enabled(s, a, Correct) && i in s.readers
    ensures i in Apply(s, a, Correct).readers
    ensures Apply(s, a, Correct).readers[i].expected == s.readers[i].expected
    ensures Apply(s, a, Correct).readers[i].snapshot == s.readers[i].snapshot
  {
  }

  lemma StepAddsReader(s: State, a: Action, i: nat)
    requires Enabled(s, a, Correct) && i !in s.readers && i in Apply(s, a, Correct).readers
    ensures a.Begin? && a.i == i && Apply(s, a, Correct).readers[i].expected == a.snapshot * s.members
  {
  }

  lemma {:induction false} EveryReaderBegan(states: seq<State>, actions: seq<Action>, k: nat, i: nat) returns (j: nat)
    requires IsRun(states, actions, Correct) && Initial(states[0]) && k < |states| && i in states[k].readers
    ensures j < k && BeganIn(states, actions, j, i, states[k].readers[i].expected)
    decreases k
  {
    hide Apply, Enabled;
    if i in states[k - 1].readers {
      j := EveryReaderBegan(states, actions, k - 1, i);
      StepKeepsExpected(states[k - 1], actions[k - 1], i);
    } else {
      j := k - 1;
      StepAddsReader(states[k - 1], actions[k - 1], i);
    }
  }

  /**
   In every run, a completed reader has the number of indexed roots its snapshot saw when it
   began; a client is shown that number and nothing before or instead of it; and a completed
   or cancelled reader holds no guard.
   */
  lemma CountsAreExact(states: seq<State>, actions: seq<Action>, k: nat, i: nat)
    requires IsRun(states, actions, Correct) && Initial(states[0]) && k < |states| && i in states[k].readers
    ensures var phase := states[k].readers[i].phase;
            && (phase.Completed? ==>
                  exists j: nat, expected :: j < k && BeganIn(states, actions, j, i, expected) &&
                      phase.result == |expected|)
            && (phase.Completed? || phase.Cancelled? ==> i !in states[k].guards)
            && states[k].readers[i].shown == if phase.Completed? then Some(phase.result) else None
  {
    InvAlways(states, actions, k);
    var reader := states[k].readers[i];
    assert ReaderOk(states[k], reader, i in states[k].guards);
    var j := EveryReaderBegan(states, actions, k, i);
    assert BeganIn(states, actions, j, i, reader.expected);
  }

  lemma StepEnds(s: State, a: Action, i: nat)
    requires Enabled(s, a, Correct) && i in s.readers && !Active(s.readers[i].phase)
    ensures i in Apply(s, a, Correct).readers && Apply(s, a, Correct).readers[i] == s.readers[i]
  {
  }

  /** What a reader ended with never changes: a cancelled one gets no result later. */
  lemma {:induction false} EndingsAreFinal(states: seq<State>, actions: seq<Action>, j: nat, k: nat, i: nat)
    requires IsRun(states, actions, Correct) && j <= k < |states|
    requires i in states[j].readers && !Active(states[j].readers[i].phase)
    ensures i in states[k].readers && states[k].readers[i] == states[j].readers[i]
    decreases k
  {
    hide Apply, Enabled, Active;
    if j < k {
      EndingsAreFinal(states, actions, j, k - 1, i);
      StepEnds(states[k - 1], actions[k - 1], i);
    }
  }

  /** While a guard is held no root leaves or joins the index, whoever else moves. */
  lemma GuardFreezesIndex(s: State, a: Action)
    requires Inv(s) && s.guards != {} && Enabled(s, a, Correct)
    ensures Apply(s, a, Correct).members == s.members
  {
  }

  // ----- a reader never waits -----

  ghost function Steps(s: State, actions: seq<Action>): (end: Option<State>)
    decreases |actions|
  {
    if actions == [] then Some(s)
    else if Enabled(s, actions[0], Correct) then Steps(Apply(s, actions[0], Correct), actions[1..])
    else None
  }

  lemma StepsCons(s: State, a: Action, rest: seq<Action>)
    requires Enabled(s, a, Correct)
    ensures Steps(s, [a] + rest) == Steps(Apply(s, a, Correct), rest)
  {
    assert ([a] + rest)[1..] == rest;
  }

  ghost predicate EndsExactly(s: State, i: nat, actions: seq<Action>) {
    && i in s.readers
    && Steps(s, actions).Some?
    && var t := Steps(s, actions).value;
    && i in t.readers && t.readers[i].phase == Completed(|s.readers[i].expected|)
  }

  lemma {:induction false} ScanningFinishes(s: State, i: nat) returns (actions: seq<Action>)
    requires Inv(s) && i in s.readers && s.readers[i].phase.Scanning?
    ensures EndsExactly(s, i, actions)
    decreases |s.readers[i].phase.todo|, s.readers[i].phase.seen.None?
  {
    var p := s.readers[i].phase;
    assert ReaderOk(s, s.readers[i], i in s.guards);
    var a := if p.seen.Some? then Tally(i)
             else if p.todo == {} then Release(i)
             else var b :| b in p.todo; Observe(i, b);
    StepKeepsInv(s, a);
    var t := Apply(s, a, Correct);
    StepKeepsExpected(s, a, i);
    if a.Release? {
      assert ReaderOk(t, t.readers[i], i in t.guards);
      actions := [a];
      StepsCons(s, a, []);
      assert [a] + [] == [a];
    } else {
      assert a.Tally? ==> |t.readers[i].phase.todo| < |p.todo|;
      var rest := ScanningFinishes(t, i);
      actions := [a] + rest;
      StepsCons(s, a, rest);
    }
  }

  /** From any reachable state a running reader can finish by its own steps alone. */
  lemma ReadersCanFinish(s: State, i: nat) returns (actions: seq<Action>)
    requires Inv(s) && In(s, i)
    ensures EndsExactly(s, i, actions)
    decreases if s.readers[i].phase.Started? then 1 else 0
  {
    var p := s.readers[i].phase;
    if p.Scanning? {
      actions := ScanningFinishes(s, i);
    } else {
      var a := if p.Started? then TryGuard(i) else Copy(i);
      StepKeepsInv(s, a);
      StepKeepsExpected(s, a, i);
      var t := Apply(s, a, Correct);
      assert ReaderOk(t, t.readers[i], i in t.guards);
      var rest := [];
      if t.readers[i].phase.Guarded? {
        rest := ReadersCanFinish(t, i);
      } else if t.readers[i].phase.Scanning? {
        rest := ScanningFinishes(t, i);
      }
      actions := [a] + rest;
      StepsCons(s, a, rest);
    }
  }

  // ----- what goes wrong otherwise -----

  /** One indexed row, deleted before any snapshot that follows. */
  const ONE_ROW := State(map[0 := Slot(0, 0)], {0}, {0}, {}, {}, Free, {}, map[])

  ghost function At(heap: State, phase: Phase, guards: set<nat>): State {
    heap.(readers := map[0 := Advanced(Reader({}, {}, phase, None), phase)], guards := guards)
  }

  ghost predicate Reaches(s: State, mode: Mode) {
    exists states, actions :: IsRun(states, actions, mode) && Initial(states[0]) && states[|actions|] == s
  }

  /** Some run ends with reader 0 showing one row although its snapshot sees none. */
  ghost predicate Miscounts(mode: Mode) {
    exists s ::
      && Reaches(s, mode)
      && 0 in s.readers && s.readers[0].phase == Completed(1) && s.readers[0].shown == Some(1) &&
           s.readers[0].expected == {}
  }

  ghost predicate Goes(s: State, a: Action, t: State, mode: Mode) {
    Enabled(s, a, mode) && Apply(s, a, mode) == t
  }

  lemma ReachesNext(s: State, a: Action, t: State, mode: Mode)
    requires Reaches(s, mode) && Goes(s, a, t, mode)
    ensures Reaches(t, mode)
  {
    hide Enabled, Apply, Initial;
    var states, actions :| IsRun(states, actions, mode) && Initial(states[0]) && states[|actions|] == s;
    assert IsRun(states + [t], actions + [a], mode);
    assert (states + [t])[|actions + [a]|] == t && (states + [t])[0] == states[0];
  }

  lemma RunStarts(h: State, mode: Mode)
    requires Initial(h)
    ensures Reaches(h, mode)
  {
    var none: seq<Action> := [];
    assert IsRun([h], none, mode) && Initial([h][0]) && [h][|none|] == h;
  }

  lemma BeginGoes(h: State, mode: Mode)
    requires h == ONE_ROW
    ensures Goes(h, Begin(0, {}), At(h, Started, {}), mode)
  {
    var none: set<Root> := {};
    assert none * h.members == none;
    assert h.readers[0 := Reader({}, {}, Started, None)] == map[0 := Reader({}, {}, Started, None)];
  }

  lemma CopyGoes(h: State, scan: Phase, mode: Mode)
    requires h == ONE_ROW && scan == Scanning({Slot(0, 0)}, {0}, None, 0) && mode != CopyFirst
    ensures Goes(At(h, Started, {}), TryGuard(0), At(h, Guarded, {0}), mode)
    ensures Goes(At(h, Guarded, {0}), Copy(0), At(h, scan, {0}), mode)
  {
    var s := At(h, Guarded, {0});
    OneSlot(s);
    assert s.readers[0 := Reader({}, {}, scan, None)] == map[0 := Reader({}, {}, scan, None)];
  }

  lemma ReachesCopy(mode: Mode)
    requires mode != CopyFirst
    ensures Reaches(At(ONE_ROW, Scanning({Slot(0, 0)}, {0}, None, 0), {0}), mode)
  {
    hide Goes;
    var h := ONE_ROW;
    var scan := Scanning({Slot(0, 0)}, {0}, None, 0);
    RunStarts(h, mode);
    BeginGoes(h, mode);
    CopyGoes(h, scan, mode);
    ReachesNext(h, Begin(0, {}), At(h, Started, {}), mode);
    ReachesNext(At(h, Started, {}), TryGuard(0), At(h, Guarded, {0}), mode);
    ReachesNext(At(h, Guarded, {0}), Copy(0), At(h, scan, {0}), mode);
  }

  lemma OneSlot(s: State)
    requires s.slots == ONE_ROW.slots && s.members == {0}
    ensures SlotsOf(s, s.members) == {Slot(0, 0)} && BlocksOf({Slot(0, 0)}) == {0}
  {
  }

  lemma SeenGoes(h: State, copied: set<Slot>, mode: Mode)
    requires copied == {Slot(0, 0)} && (0 in h.vm || mode == CachedMark) && mode != PublishPartial
    ensures var seen := At(h, Scanning(copied, {0}, Some(Seen(0, true)), 0), {0});
            && Goes(At(h, Scanning(copied, {0}, None, 0), {0}), Observe(0, 0), seen, mode)
            && Goes(seen, Tally(0), At(h, Scanning(copied, {}, None, 1), {0}), mode)
  {
    var seen := At(h, Scanning(copied, {0}, Some(Seen(0, true)), 0), {0});
    assert Counted(seen, {}, copied, Seen(0, true)) == copied;
    assert {0} - {0} == {};
  }

  lemma ReleaseGoes(h: State, copied: set<Slot>, mode: Mode)
    ensures Goes(At(h, Scanning(copied, {}, None, 1), {0}), Release(0), At(h, Completed(1), {}), mode)
  {
    assert {0} - {0} == {};
  }

  /** A page wrongly seen as all-visible makes the reader show its one copied slot. */
  lemma SeenMiscounts(h: State, mode: Mode)
    requires Reaches(At(h, Scanning({Slot(0, 0)}, {0}, None, 0), {0}), mode)
    requires (0 in h.vm || mode == CachedMark) && mode != PublishPartial
    ensures Miscounts(mode)
  {
    hide Goes, Reaches;
    var copied := {Slot(0, 0)};
    var s1 := At(h, Scanning(copied, {0}, None, 0), {0});
    var s2 := At(h, Scanning(copied, {0}, Some(Seen(0, true)), 0), {0});
    var s3 := At(h, Scanning(copied, {}, None, 1), {0});
    SeenGoes(h, copied, mode);
    ReleaseGoes(h, copied, mode);
    ReachesNext(s1, Observe(0, 0), s2, mode);
    ReachesNext(s2, Tally(0), s3, mode);
    ReachesNext(s3, Release(0), At(h, Completed(1), {}), mode);
  }

  /** A mark remembered from before, rather than probed now, certifies the deleted row. */
  lemma CachedMarkMiscounts()
    ensures Miscounts(CachedMark)
  {
    ReachesCopy(CachedMark);
    SeenMiscounts(ONE_ROW, CachedMark);
  }

  lemma CleanupGoes(phase: Phase, h: State)
    requires h == ONE_ROW && phase.Scanning?
    ensures var h1 := h.(writer := Exclusive({0}), dead := {0});
            && Goes(At(h, phase, {0}), Acquire({0}), At(h1, phase, {0}), IgnoreGuard)
            && Goes(At(h1, phase, {0}), Retire, At(h1.(members := {}), phase, {0}), IgnoreGuard)
  {
  }

  lemma EmptyPageGoes(phase: Phase, h: State)
    requires h == ONE_ROW.(writer := Exclusive({0}), dead := {0}, members := {}) && phase.Scanning?
    ensures var h1 := h.(present := {});
            && Goes(At(h, phase, {0}), Remove(0), At(h1, phase, {0}), IgnoreGuard)
            && Goes(At(h1, phase, {0}), SetMark(0), At(h1.(vm := {0}), phase, {0}), IgnoreGuard)
  {
  }

  /** Cleanup that ignores the guard empties and marks the page between copy and probe. */
  lemma IgnoredGuardMiscounts()
    ensures Miscounts(IgnoreGuard)
  {
    hide Goes;
    var scan := Scanning({Slot(0, 0)}, {0}, None, 0);
    var h := ONE_ROW;
    var h1 := h.(writer := Exclusive({0}), dead := {0});
    var h2 := h1.(members := {});
    var h3 := h2.(present := {});
    var h4 := h3.(vm := {0});
    ReachesCopy(IgnoreGuard);
    CleanupGoes(scan, h);
    EmptyPageGoes(scan, h2);
    ReachesNext(At(h, scan, {0}), Acquire({0}), At(h1, scan, {0}), IgnoreGuard);
    ReachesNext(At(h1, scan, {0}), Retire, At(h2, scan, {0}), IgnoreGuard);
    ReachesNext(At(h2, scan, {0}), Remove(0), At(h3, scan, {0}), IgnoreGuard);
    ReachesNext(At(h3, scan, {0}), SetMark(0), At(h4, scan, {0}), IgnoreGuard);
    SeenMiscounts(h4, IgnoreGuard);
  }

  lemma EarlyGoes(h: State, early: Phase)
    requires h == ONE_ROW && early == Early({Slot(0, 0)})
    ensures Goes(At(h, Started, {}), Copy(0), At(h, early, {}), CopyFirst)
  {
    var s := At(h, Started, {});
    OneSlot(s);
    assert s.readers[0 := Reader({}, {}, early, None)] == map[0 := Reader({}, {}, early, None)];
  }

  lemma EarlyRetireGoes(h: State, early: Phase)
    requires h == ONE_ROW && early == Early({Slot(0, 0)})
    ensures var h1 := h.(writer := Exclusive({0}), dead := {0});
            && Goes(At(h, early, {}), Acquire({0}), At(h1, early, {}), CopyFirst)
            && Goes(At(h1, early, {}), Retire, At(h1.(members := {}), early, {}), CopyFirst)
  {
  }

  lemma EarlyCleanupGoes(h: State, early: Phase)
    requires h == ONE_ROW.(writer := Exclusive({0}), dead := {0}, members := {}) && early == Early({Slot(0, 0)})
    ensures var h1 := h.(present := {});
            && Goes(At(h, early, {}), Remove(0), At(h1, early, {}), CopyFirst)
            && Goes(At(h1, early, {}), SetMark(0), At(h1.(vm := {0}), early, {}), CopyFirst)
  {
  }

  lemma LateGuardGoes(h: State, early: Phase, scan: Phase)
    requires h.writer.Exclusive? && early == Early({Slot(0, 0)}) && scan == Scanning({Slot(0, 0)}, {0}, None, 0)
    ensures Goes(At(h, early, {}), WriterRelease, At(h.(writer := Free), early, {}), CopyFirst)
    ensures Goes(At(h.(writer := Free), early, {}), TryGuard(0), At(h.(writer := Free), scan, {0}), CopyFirst)
  {
    assert BlocksOf({Slot(0, 0)}) == {0};
    assert At(h, early, {}).readers[0 := Reader({}, {}, scan, None)] == map[0 := Reader({}, {}, scan, None)];
  }

  /** A copy made before the guard outlives the row: cleanup runs between the two. */
  lemma EarlyCopyMiscounts()
    ensures Miscounts(CopyFirst)
  {
    hide Goes;
    var early := Early({Slot(0, 0)});
    var h := ONE_ROW;
    var h1 := h.(writer := Exclusive({0}), dead := {0});
    var h2 := h1.(members := {});
    var h3 := h2.(present := {});
    var h4 := h3.(vm := {0});
    var h5 := h4.(writer := Free);
    RunStarts(h, CopyFirst);
    BeginGoes(h, CopyFirst);
    EarlyGoes(h, early);
    EarlyRetireGoes(h, early);
    EarlyCleanupGoes(h2, early);
    LateGuardGoes(h4, early, Scanning({Slot(0, 0)}, {0}, None, 0));
    ReachesNext(h, Begin(0, {}), At(h, Started, {}), CopyFirst);
    ReachesNext(At(h, Started, {}), Copy(0), At(h, early, {}), CopyFirst);
    ReachesNext(At(h, early, {}), Acquire({0}), At(h1, early, {}), CopyFirst);
    ReachesNext(At(h1, early, {}), Retire, At(h2, early, {}), CopyFirst);
    ReachesNext(At(h2, early, {}), Remove(0), At(h3, early, {}), CopyFirst);
    ReachesNext(At(h3, early, {}), SetMark(0), At(h4, early, {}), CopyFirst);
    ReachesNext(At(h4, early, {}), WriterRelease, At(h5, early, {}), CopyFirst);
    ReachesNext(At(h5, early, {}), TryGuard(0), At(h5, Scanning({Slot(0, 0)}, {0}, None, 0), {0}), CopyFirst);
    SeenMiscounts(h5, CopyFirst);
  }

  /** Two indexed rows on two pages, both seen by the reader's snapshot. */
  const TWO_ROWS := State(map[0 := Slot(0, 0), 1 := Slot(1, 0)], {0, 1}, {0, 1}, {}, {}, Free, {}, map[])

  ghost function Both(phase: Phase, shown: Option<nat>, guards: set<nat>): State {
    TWO_ROWS.(readers := map[0 := Reader({0, 1}, {0, 1}, phase, shown)], guards := guards)
  }

  /** Some run shows a running reader's client a number that is not its count. */
  ghost predicate ShowsPartial(mode: Mode) {
    exists s ::
      && Reaches(s, mode) && 0 in s.readers && Active(s.readers[0].phase)
      && s.readers[0].shown.Some? && s.readers[0].shown.value < |s.readers[0].expected|
  }

  lemma BothBegin()
    ensures Goes(TWO_ROWS, Begin(0, {0, 1}), Both(Started, None, {}), PublishPartial)
  {
    assert TWO_ROWS.readers[0 := Reader({0, 1}, {0, 1}, Started, None)] ==
             map[0 := Reader({0, 1}, {0, 1}, Started, None)];
    assert {0, 1} * TWO_ROWS.members == {0, 1};
  }

  lemma BothGuard()
    ensures Goes(Both(Started, None, {}), TryGuard(0), Both(Guarded, None, {0}), PublishPartial)
  {
    var s := Both(Started, None, {});
    assert s.readers[0 := Reader({0, 1}, {0, 1}, Guarded, None)] == map[0 := Reader({0, 1}, {0, 1}, Guarded, None)];
  }

  lemma BothSlots(s: State, copied: set<Slot>)
    requires s.slots == TWO_ROWS.slots && copied == {Slot(0, 0), Slot(1, 0)}
    ensures SlotsOf(s, {0, 1}) == copied && BlocksOf(copied) == {0, 1}
  {
    assert s.slots[0] == Slot(0, 0) && s.slots[1] == Slot(1, 0);
    assert Slot(0, 0).block == 0 && Slot(1, 0).block == 1;
  }

  lemma BothCopy(copied: set<Slot>)
    requires copied == {Slot(0, 0), Slot(1, 0)}
    ensures Goes(Both(Guarded, None, {0}), Copy(0), Both(Scanning(copied, {0, 1}, None, 0), None, {0}), PublishPartial)
  {
    hide SlotsOf, BlocksOf;
    var s, scan := Both(Guarded, None, {0}), Scanning(copied, {0, 1}, None, 0);
    BothSlots(s, copied);
    assert s.readers[0 := Reader({0, 1}, {0, 1}, scan, None)] == map[0 := Reader({0, 1}, {0, 1}, scan, None)];
  }

  lemma TallyGoes(copied: set<Slot>)
    requires copied == {Slot(0, 0), Slot(1, 0)}
    ensures var scan := Both(Scanning(copied, {0, 1}, None, 0), None, {0});
            var seen := Both(Scanning(copied, {0, 1}, Some(Seen(0, false)), 0), None, {0});
            && Goes(scan, Observe(0, 0), seen, PublishPartial)
            && Goes(seen, Tally(0), Both(Scanning(copied, {1}, None, 1), Some(1), {0}), PublishPartial)
  {
    var seen := Both(Scanning(copied, {0, 1}, Some(Seen(0, false)), 0), None, {0});
    assert HeapVisible(seen, {0, 1}, Slot(0, 0)) by {
      assert 0 in seen.present && seen.slots[0] == Slot(0, 0);
    }
    assert Counted(seen, {0, 1}, copied, Seen(0, false)) == {Slot(0, 0)};
    assert {0, 1} - {0} == {1};
  }

  /** A count shown page by page is seen before it is complete. */
  lemma PartialIsSeen()
    ensures ShowsPartial(PublishPartial)
  {
    hide Goes, Reaches;
    var copied := {Slot(0, 0), Slot(1, 0)};
    var scan := Both(Scanning(copied, {0, 1}, None, 0), None, {0});
    var seen := Both(Scanning(copied, {0, 1}, Some(Seen(0, false)), 0), None, {0});
    var last := Both(Scanning(copied, {1}, None, 1), Some(1), {0});
    RunStarts(TWO_ROWS, PublishPartial);
    BothBegin();
    BothGuard();
    BothCopy(copied);
    TallyGoes(copied);
    ReachesNext(TWO_ROWS, Begin(0, {0, 1}), Both(Started, None, {}), PublishPartial);
    ReachesNext(Both(Started, None, {}), TryGuard(0), Both(Guarded, None, {0}), PublishPartial);
    ReachesNext(Both(Guarded, None, {0}), Copy(0), scan, PublishPartial);
    ReachesNext(scan, Observe(0, 0), seen, PublishPartial);
    ReachesNext(seen, Tally(0), last, PublishPartial);
    assert Active(last.readers[0].phase) && |last.readers[0].expected| == 2;
  }
}
