/**
 The generation guard of the visibility-map count, for any number of readers, roots, heap
 pages and cleanup rounds.

 A root is one incarnation of a row; its slot may be given to a later root once it has
 been removed. What PostgreSQL guarantees is part of when a step may happen: a root
 declared dead is in no running or later snapshot, a page is marked all-visible only while
 everything on it is visible to every snapshot, a new row clears the mark and is invisible
 to running snapshots, and a row is indexed before any snapshot can see it. `members` are
 the indexed roots that satisfy the query being counted.
 */
module CountGuard {
  import opened Outcomes

  type Root = nat

  datatype Slot = Slot(block: nat, offset: nat)

  datatype Phase =
    | Started
    | Early(copied: set<Slot>)
    | Guarded
    | Scanning(copied: set<Slot>, todo: set<nat>, seen: Option<Seen>, count: nat)
    | Completed(result: nat)
    | Cancelled

  /** A page being counted and what its visibility-map bit was. */
  datatype Seen = Seen(block: nat, allVisible: bool)

  /**
   `expected` is what the snapshot should count; no step reads it. `shown` is the result the
   reader's client has been given.
   */
  datatype Reader = Reader(snapshot: set<Root>, expected: set<Root>, phase: Phase, shown: Option<nat>)

  datatype Writer = Free | Exclusive(victims: set<Root>)

  datatype State = State(
    slots: map<Root, Slot>,
    present: set<Root>,
    members: set<Root>,
    dead: set<Root>,
    vm: set<nat>,
    writer: Writer,
    guards: set<nat>,
    readers: map<nat, Reader>)

  datatype Action =
    | Begin(i: nat, snapshot: set<Root>)
    | TryGuard(i: nat)
    | Copy(i: nat)
    | Observe(i: nat, block: nat)
    | Tally(i: nat)
    | Release(i: nat)
    | Cancel(i: nat)
    | Insert(root: Root, slot: Slot)
    | Publish(root: Root)
    | ClearMark(block: nat)
    | SetMark(block: nat)
    | Acquire(victims: set<Root>)
    | Retire
    | Remove(root: Root)
    | WriterRelease

  /** The protocol, and four ways to break it. */
  datatype Mode = Correct | IgnoreGuard | CopyFirst | CachedMark | PublishPartial

  predicate Active(p: Phase) {
    p.Started? || p.Early? || p.Guarded? || p.Scanning?
  }

  predicate In(s: State, i: nat) {
    i in s.readers && Active(s.readers[i].phase)
  }

  // ----- when a step may happen -----

  ghost predicate NoneSees(s: State, roots: set<Root>) {
    forall i | In(s, i) :: s.readers[i].snapshot !! roots
  }

  ghost predicate AllSee(s: State, block: nat) {
    forall i, r | In(s, i) && r in s.present && r in s.slots && s.slots[r].block == block :: r in s.readers[i].snapshot
  }

  ghost predicate Unguarded(s: State, mode: Mode) {
    s.guards == {} || mode == IgnoreGuard
  }

  ghost predicate Enabled(s: State, a: Action, mode: Mode) {
    match a
    case Begin(i, snapshot) =>
      && i !in s.readers
      && snapshot <= s.present - s.dead
      && (forall r | r in s.present && r in s.slots && s.slots[r].block in s.vm :: r in snapshot)
    case TryGuard(i) =>
      i in s.readers && if mode == CopyFirst then s.readers[i].phase.Early? else s.readers[i].phase.Started?
    case Copy(i) =>
      i in s.readers && if mode == CopyFirst then s.readers[i].phase.Started? else s.readers[i].phase.Guarded?
    case Observe(i, block) =>
      i in s.readers && s.readers[i].phase.Scanning? && s.readers[i].phase.seen.None? &&
          block in s.readers[i].phase.todo
    case Tally(i) => i in s.readers && s.readers[i].phase.Scanning? && s.readers[i].phase.seen.Some?
    case Release(i) =>
      i in s.readers && s.readers[i].phase.Scanning? && s.readers[i].phase.seen.None? && s.readers[i].phase.todo == {}
    case Cancel(i) => In(s, i)
    case Insert(root, slot) => root !in s.slots && forall r | r in s.present && r in s.slots :: s.slots[r] != slot
    case Publish(root) =>
      s.writer.Free? && Unguarded(s, mode) && root in s.present - s.dead && NoneSees(s, {root})
    case ClearMark(block) => true
    case SetMark(block) => AllSee(s, block)
    case Acquire(victims) => s.writer.Free? && Unguarded(s, mode) && victims <= s.present && NoneSees(s, victims)
    case Retire => s.writer.Exclusive?
    case Remove(root) => root in s.dead && root !in s.members
    case WriterRelease => s.writer.Exclusive?
  }

  // ----- what a step does -----

  ghost predicate HeapVisible(s: State, snapshot: set<Root>, slot: Slot) {
    exists r :: r in s.present && r in snapshot && r in s.slots && s.slots[r] == slot
  }

  ghost function SlotsOf(s: State, roots: set<Root>): set<Slot> {
    set r | r in roots && r in s.slots :: s.slots[r]
  }

  ghost function BlocksOf(slots: set<Slot>): set<nat> {
    set slot | slot in slots :: slot.block
  }

  ghost function Counted(s: State, snapshot: set<Root>, copied: set<Slot>, seen: Seen): set<Slot> {
    set slot | slot in copied && slot.block == seen.block && (seen.allVisible || HeapVisible(s, snapshot, slot))
  }

  /** Completing shows the result; being cancelled takes back whatever was shown. */
  function Advanced(reader: Reader, phase: Phase): Reader {
    var shown := if phase.Completed? then Some(phase.result) else if phase.Cancelled? then None else reader.shown;
    reader.(phase := phase, shown := shown)
  }

  ghost function Move(s: State, i: nat, phase: Phase, guards: set<nat>): State
    requires i in s.readers
  {
    s.(readers := s.readers[i := Advanced(s.readers[i], phase)], guards := guards)
  }

  /** The client is given a count while the scan goes on. */
  ghost function Show(s: State, i: nat, count: nat): State
    requires i in s.readers
  {
    s.(readers := s.readers[i := s.readers[i].(shown := Some(count))])
  }

  ghost function Apply(s: State, a: Action, mode: Mode): State
    requires Enabled(s, a, mode)
  {
    match a
    case Begin(i, snapshot) => s.(readers := s.readers[i := Reader(snapshot, snapshot * s.members, Started, None)])
    case TryGuard(i) =>
      if s.writer.Exclusive? then Move(s, i, Completed(|s.readers[i].snapshot * s.members|), s.guards)
      else if mode == CopyFirst then
        var copied := s.readers[i].phase.copied;
        Move(s, i, Scanning(copied, BlocksOf(copied), None, 0), s.guards + {i})
      else Move(s, i, Guarded, s.guards + {i})
    case Copy(i) =>
      var copied := SlotsOf(s, s.members);
      Move(s, i, if mode == CopyFirst then Early(copied) else Scanning(copied, BlocksOf(copied), None, 0), s.guards)
    case Observe(i, block) =>
      Move(s, i, s.readers[i].phase.(seen := Some(Seen(block, block in s.vm || mode == CachedMark))), s.guards)
    case Tally(i) =>
      var p := s.readers[i].phase;
      var counted := Counted(s, s.readers[i].snapshot, p.copied, p.seen.value);
      var t := Move(s, i, Scanning(p.copied, p.todo - {p.seen.value.block}, None, p.count + |counted|), s.guards);
      if mode == PublishPartial then Show(t, i, p.count + |counted|) else t
    case Release(i) => Move(s, i, Completed(s.readers[i].phase.count), s.guards - {i})
    case Cancel(i) => Move(s, i, Cancelled, s.guards - {i})
    case Insert(root, slot) =>
      s.(slots := s.slots[root := slot], present := s.present + {root}, vm := s.vm - {slot.block})
    case Publish(root) => s.(members := s.members + {root})
    case ClearMark(block) => s.(vm := s.vm - {block})
    case SetMark(block) => s.(vm := s.vm + {block})
    case Acquire(victims) => s.(writer := Exclusive(victims), dead := s.dead + victims)
    case Retire => s.(members := s.members - s.writer.victims)
    case Remove(root) => s.(present := s.present - {root})
    case WriterRelease => s.(writer := Free)
  }

  // ----- what every step keeps -----

  /** Index, heap and dead roots. */
  ghost predicate HeapOk(s: State) {
    && s.members <= s.present && (forall r | r in s.present :: r in s.slots)
    && (forall r, t | r in s.present && t in s.present && s.slots[r] == s.slots[t] :: r == t)
  }

  /** Marked pages hold only rows every running snapshot sees. */
  ghost predicate MarksOk(s: State) {
    forall b | b in s.vm :: AllSee(s, b)
  }

  /** The part of `expected` on the pages already counted. */
  ghost function Finished(s: State, reader: Reader, todo: set<nat>): set<Root> {
    set r | r in reader.expected && r in s.slots && s.slots[r].block !in todo
  }

  ghost predicate ScanOk(s: State, reader: Reader) {
    reader.phase.Scanning? ==>
      var p := reader.phase;
      && p.copied == SlotsOf(s, s.members)
      && p.count == |Finished(s, reader, p.todo)|
      && (p.seen.Some? ==> p.seen.value.block in p.todo)
      && (p.seen.Some? && p.seen.value.allVisible ==>
            forall r | r in s.members && r in s.slots && s.slots[r].block == p.seen.value.block :: r in reader.snapshot)
  }

  ghost predicate ReaderOk(s: State, reader: Reader, guarded: bool) {
    && (Active(reader.phase) ==>
          reader.snapshot <= s.present && reader.snapshot !! s.dead && reader.expected == reader.snapshot * s.members)
    && (guarded <==> reader.phase.Guarded? || reader.phase.Scanning?)
    && ScanOk(s, reader) && !reader.phase.Early?
    && (reader.phase.Completed? ==> reader.phase.result == |reader.expected|)
    && reader.shown == if reader.phase.Completed? then Some(reader.phase.result) else None
  }

  ghost predicate ReadersOk(s: State) {
    && (forall i | i in s.readers :: ReaderOk(s, s.readers[i], i in s.guards))
    && (forall i | i in s.guards :: i in s.readers)
  }

  ghost predicate Inv(s: State) {
    && HeapOk(s) && MarksOk(s) && ReadersOk(s)
    && (s.writer.Exclusive? ==> s.guards == {} && s.writer.victims <= s.dead)
  }

  /** No reader yet, an idle writer, and an index that lists rows of the heap. */
  ghost predicate Initial(s: State) {
    HeapOk(s) && s.writer.Free? && s.guards == {} && s.readers == map[]
  }

  // ----- steps of a reader -----

  lemma SameMarks(s: State, t: State)
    requires MarksOk(s) && t.vm <= s.vm && t.present <= s.present && t.slots == s.slots
    requires forall j | In(t, j) :: In(s, j) && t.readers[j].snapshot == s.readers[j].snapshot
    ensures MarksOk(t)
  {
    forall b | b in t.vm ensures AllSee(t, b) {
      assert AllSee(s, b);
    }
  }

  /** A reader's step leaves every other reader alone. */
  lemma MoveKeeps(s: State, i: nat, phase: Phase, guards: set<nat>)
    requires Inv(s) && i in s.readers && forall j | j != i :: j in guards <==> j in s.guards
    requires ReaderOk(s, Advanced(s.readers[i], phase), i in guards)
    requires Active(phase) ==> Active(s.readers[i].phase)
    requires s.writer.Exclusive? ==> guards == {}
    ensures Inv(Move(s, i, phase, guards))
  {
    var t := Move(s, i, phase, guards);
    forall j | j in t.readers ensures ReaderOk(t, t.readers[j], j in t.guards) {
      assert ReaderOk(s, t.readers[j], j in t.guards) by {
        if j != i {
          assert j in t.guards <==> j in s.guards;
        }
      }
      SameHeapReader(s, t, t.readers[j], j in t.guards);
    }
    SameMarks(s, t);
  }

  /** What a reader promises depends only on the heap, the index and the dead roots. */
  lemma SameHeapReader(s: State, t: State, reader: Reader, guarded: bool)
    requires ReaderOk(s, reader, guarded)
    requires t.slots == s.slots && t.present == s.present && t.members == s.members && t.dead == s.dead
    ensures ReaderOk(t, reader, guarded)
  {
    assert SlotsOf(t, t.members) == SlotsOf(s, s.members);
    assert reader.phase.Scanning? ==> Finished(t, reader, reader.phase.todo) == Finished(s, reader, reader.phase.todo);
  }

  lemma BeginKeeps(s: State, i: nat, snapshot: set<Root>)
    requires Inv(s) && Enabled(s, Begin(i, snapshot), Correct)
    ensures Inv(Apply(s, Begin(i, snapshot), Correct))
  {
    var t := Apply(s, Begin(i, snapshot), Correct);
    assert i !in s.guards;
    forall j | j in t.readers ensures ReaderOk(t, t.readers[j], j in t.guards) {
      if j != i {
        SameHeapReader(s, t, t.readers[j], j in t.guards);
      }
    }
    forall b | b in t.vm ensures AllSee(t, b) {
      assert AllSee(s, b);
      forall j, r | In(t, j) && r in t.present && r in t.slots && t.slots[r].block == b
        ensures r in t.readers[j].snapshot
      {
        assert j != i ==> In(s, j);
      }
    }
  }

  lemma CopyKeeps(s: State, i: nat)
    requires Inv(s) && Enabled(s, Copy(i), Correct)
    ensures Inv(Apply(s, Copy(i), Correct))
  {
    var copied := SlotsOf(s, s.members);
    var phase := Scanning(copied, BlocksOf(copied), None, 0);
    var reader := Advanced(s.readers[i], phase);
    assert ReaderOk(s, s.readers[i], i in s.guards);
    assert Finished(s, reader, BlocksOf(copied)) == {} by {
      forall r | r in reader.expected ensures r !in Finished(s, reader, BlocksOf(copied)) {
        assert s.slots[r] in copied;
      }
    }
    MoveKeeps(s, i, phase, s.guards);
  }

  lemma ObserveKeeps(s: State, i: nat, block: nat)
    requires Inv(s) && Enabled(s, Observe(i, block), Correct)
    ensures Inv(Apply(s, Observe(i, block), Correct))
  {
    var reader := s.readers[i];
    assert ReaderOk(s, reader, i in s.guards) && In(s, i);
    var phase := reader.phase.(seen := Some(Seen(block, block in s.vm)));
    assert block in s.vm ==> AllSee(s, block);
    assert Finished(s, Advanced(reader, phase), phase.todo) == Finished(s, reader, phase.todo);
    MoveKeeps(s, i, phase, s.guards);
  }

  // ----- counting one page -----

  /** Distinct present roots have distinct slots, so slots can be counted for roots. */
  lemma {:induction false} SlotsCount(s: State, roots: set<Root>)
    requires HeapOk(s) && roots <= s.present
    ensures |SlotsOf(s, roots)| == |roots|
    decreases |roots|
  {
    if roots == {} {
      assert SlotsOf(s, roots) == {};
    } else {
      var r :| r in roots;
      SlotsCount(s, roots - {r});
      assert SlotsOf(s, roots) == SlotsOf(s, roots - {r}) + {s.slots[r]};
    }
  }

  ghost function OnBlock(s: State, reader: Reader, block: nat): set<Root> {
    set r | r in reader.expected && r in s.slots && s.slots[r].block == block
  }

  /** The slots counted on a page are those of the expected roots there, whatever the mark said. */
  lemma CountedIsExpected(s: State, reader: Reader)
    requires HeapOk(s) && ReaderOk(s, reader, true) && reader.phase.Scanning? && reader.phase.seen.Some?
    ensures var p := reader.phase;
            Counted(s, reader.snapshot, p.copied, p.seen.value) == SlotsOf(s, OnBlock(s, reader, p.seen.value.block))
  {
    var p := reader.phase;
    var counted := Counted(s, reader.snapshot, p.copied, p.seen.value);
    var here := OnBlock(s, reader, p.seen.value.block);
    forall slot | slot in counted ensures slot in SlotsOf(s, here) {
      var r :| r in s.members && r in s.slots && s.slots[r] == slot;
      if !p.seen.value.allVisible {
        var t :| t in s.present && t in reader.snapshot && t in s.slots && s.slots[t] == slot;
        assert t == r;
      }
      assert r in here;
    }
    forall slot | slot in SlotsOf(s, here) ensures slot in counted {
      var r :| r in here && r in s.slots && s.slots[r] == slot;
      assert r in s.members && HeapVisible(s, reader.snapshot, slot);
    }
  }

  lemma TallyCounts(s: State, reader: Reader)
    requires HeapOk(s) && ReaderOk(s, reader, true) && reader.phase.Scanning? && reader.phase.seen.Some?
    ensures var p := reader.phase;
            var block := p.seen.value.block;
            |Finished(s, reader, p.todo - {block})| == p.count + |Counted(s, reader.snapshot, p.copied, p.seen.value)|
  {
    hide Counted;
    var p := reader.phase;
    var block := p.seen.value.block;
    var here := OnBlock(s, reader, block);
    CountedIsExpected(s, reader);
    assert here <= s.present;
    SlotsCount(s, here);
    assert Finished(s, reader, p.todo - {block}) == Finished(s, reader, p.todo) + here;
    assert Finished(s, reader, p.todo) !! here;
  }

  lemma TallyKeeps(s: State, i: nat)
    requires Inv(s) && Enabled(s, Tally(i), Correct)
    ensures Inv(Apply(s, Tally(i), Correct))
  {
    hide Counted, MarksOk;
    var reader := s.readers[i];
    var p := reader.phase;
    assert ReaderOk(s, reader, i in s.guards);
    TallyCounts(s, reader);
    var counted := Counted(s, reader.snapshot, p.copied, p.seen.value);
    var phase := Scanning(p.copied, p.todo - {p.seen.value.block}, None, p.count + |counted|);
    assert Finished(s, Advanced(reader, phase), phase.todo) == Finished(s, reader, phase.todo);
    MoveKeeps(s, i, phase, s.guards);
  }

  lemma ReleaseKeeps(s: State, i: nat)
    requires Inv(s) && Enabled(s, Release(i), Correct)
    ensures Inv(Apply(s, Release(i), Correct))
  {
    var reader := s.readers[i];
    assert ReaderOk(s, reader, i in s.guards);
    assert Finished(s, reader, {}) == reader.expected;
    MoveKeeps(s, i, Completed(reader.phase.count), s.guards - {i});
  }

  lemma ReaderStepKeeps(s: State, a: Action)
    requires Inv(s) && Enabled(s, a, Correct)
    requires a.Begin? || a.TryGuard? || a.Copy? || a.Observe? || a.Tally? || a.Release? || a.Cancel?
    ensures Inv(Apply(s, a, Correct))
  {
    match a
    case Begin(i, snapshot) => BeginKeeps(s, i, snapshot);
    case TryGuard(i) =>
      assert ReaderOk(s, s.readers[i], i in s.guards);
      if s.writer.Exclusive? {
        MoveKeeps(s, i, Completed(|s.readers[i].snapshot * s.members|), s.guards);
      } else {
        MoveKeeps(s, i, Guarded, s.guards + {i});
      }
    case Copy(i) => CopyKeeps(s, i);
    case Observe(i, block) => ObserveKeeps(s, i, block);
    case Tally(i) => TallyKeeps(s, i);
    case Release(i) => ReleaseKeeps(s, i);
    case Cancel(i) =>
      assert ReaderOk(s, s.readers[i], i in s.guards);
      MoveKeeps(s, i, Cancelled, s.guards - {i});
  }

  // ----- steps of everyone else -----

  lemma InsertKeeps(s: State, root: Root, slot: Slot)
    requires Inv(s) && Enabled(s, Insert(root, slot), Correct)
    ensures Inv(Apply(s, Insert(root, slot), Correct))
  {
    var t := Apply(s, Insert(root, slot), Correct);
    assert root !in s.present && root !in s.members;
    forall j | j in t.readers ensures ReaderOk(t, t.readers[j], j in t.guards) {
      var reader := s.readers[j];
      assert ReaderOk(s, reader, j in s.guards);
      if reader.phase.Scanning? {
        assert SlotsOf(t, t.members) == SlotsOf(s, s.members);
        assert Finished(t, reader, reader.phase.todo) == Finished(s, reader, reader.phase.todo);
      }
    }
    forall b | b in t.vm ensures AllSee(t, b) {
      assert AllSee(s, b);
      forall j, r | In(t, j) && r in t.present && r in t.slots && t.slots[r].block == b
        ensures r in t.readers[j].snapshot
      {
        assert In(s, j) && r != root;
      }
    }
  }

  /** With no guard held nobody is scanning, so membership may change. */
  lemma MembersKeep(s: State, members: set<Root>)
    requires Inv(s) && s.guards == {} && members <= s.present
    requires forall i | In(s, i) :: s.readers[i].snapshot * members == s.readers[i].snapshot * s.members
    ensures Inv(s.(members := members))
  {
    var t := s.(members := members);
    forall j | j in t.readers ensures ReaderOk(t, t.readers[j], j in t.guards) {
      assert ReaderOk(s, s.readers[j], j in s.guards);
      assert Active(s.readers[j].phase) ==> In(s, j);
    }
    SameMarks(s, t);
  }

  lemma PublishKeeps(s: State, root: Root)
    requires Inv(s) && Enabled(s, Publish(root), Correct)
    ensures Inv(Apply(s, Publish(root), Correct))
  {
    forall i | In(s, i) ensures s.readers[i].snapshot * (s.members + {root}) == s.readers[i].snapshot * s.members {
      assert s.readers[i].snapshot !! {root};
    }
    MembersKeep(s, s.members + {root});
  }

  lemma RetireKeeps(s: State)
    requires Inv(s) && Enabled(s, Retire, Correct)
    ensures Inv(Apply(s, Retire, Correct))
  {
    forall i | In(s, i)
      ensures s.readers[i].snapshot * (s.members - s.writer.victims) == s.readers[i].snapshot * s.members
    {
      assert ReaderOk(s, s.readers[i], i in s.guards);
    }
    MembersKeep(s, s.members - s.writer.victims);
  }

  lemma MarkKeeps(s: State, vm: set<nat>)
    requires Inv(s) && forall b | b in vm :: AllSee(s, b)
    ensures Inv(s.(vm := vm))
  {
    var t := s.(vm := vm);
    forall j | j in t.readers ensures ReaderOk(t, t.readers[j], j in t.guards) {
      SameHeapReader(s, t, t.readers[j], j in t.guards);
    }
    forall b | b in t.vm ensures AllSee(t, b) {
      assert AllSee(s, b);
      forall j, r | In(t, j) && r in t.present && r in t.slots && t.slots[r].block == b
        ensures r in t.readers[j].snapshot
      {
        assert In(s, j);
      }
    }
  }

  lemma AcquireKeeps(s: State, victims: set<Root>)
    requires Inv(s) && Enabled(s, Acquire(victims), Correct)
    ensures Inv(Apply(s, Acquire(victims), Correct))
  {
    var t := Apply(s, Acquire(victims), Correct);
    forall j | j in t.readers ensures ReaderOk(t, t.readers[j], j in t.guards) {
      assert ReaderOk(s, s.readers[j], j in s.guards);
      assert Active(s.readers[j].phase) ==> In(s, j);
    }
    SameMarks(s, t);
  }

  lemma RemoveKeeps(s: State, root: Root)
    requires Inv(s) && Enabled(s, Remove(root), Correct)
    ensures Inv(Apply(s, Remove(root), Correct))
  {
    var t := Apply(s, Remove(root), Correct);
    forall j | j in t.readers ensures ReaderOk(t, t.readers[j], j in t.guards) {
      var reader := s.readers[j];
      assert ReaderOk(s, reader, j in s.guards);
      if reader.phase.Scanning? {
        assert SlotsOf(t, t.members) == SlotsOf(s, s.members);
        assert Finished(t, reader, reader.phase.todo) == Finished(s, reader, reader.phase.todo);
      }
    }
    SameMarks(s, t);
  }

  lemma WriterReleaseKeeps(s: State)
    requires Inv(s)
    ensures Inv(s.(writer := Free))
  {
    var t := s.(writer := Free);
    forall j | j in t.readers ensures ReaderOk(t, t.readers[j], j in t.guards) {
      SameHeapReader(s, t, t.readers[j], j in t.guards);
    }
    SameMarks(s, t);
  }

  /** Every step of the protocol keeps the invariant. */
  lemma StepKeepsInv(s: State, a: Action)
    requires Inv(s) && Enabled(s, a, Correct)
    ensures Inv(Apply(s, a, Correct))
  {
    match a
    case Insert(root, slot) => InsertKeeps(s, root, slot);
    case Publish(root) => PublishKeeps(s, root);
    case ClearMark(block) => MarkKeeps(s, s.vm - {block});
    case SetMark(block) => MarkKeeps(s, s.vm + {block});
    case Acquire(victims) => AcquireKeeps(s, victims);
    case Retire => RetireKeeps(s);
    case Remove(root) => RemoveKeeps(s, root);
    case WriterRelease => WriterReleaseKeeps(s);
    case _ => ReaderStepKeeps(s, a);
  }
}
