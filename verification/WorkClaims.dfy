/**
 Parallel readers share one work state: each takes a snapshot of it, prepares a batch and
 the successor state outside the lock, and owns the batch only if it can still replace the
 snapshot by the successor.
 */
module WorkClaims {
  import opened Outcomes

  datatype Prepared<W, B> = Finished | Corrupt | Batch(next: W, batch: B)

  /** How to cut work into batches, and how much a batch contributes to the total. */
  datatype Job<!W, !B> = Job(prepare: W -> Prepared<W, B>, weight: B -> nat)

  datatype Phase<W, B> =
    | Idle
    | Snapped(words: W)
    | Ready(words: W, next: W, batch: B)
    | Holding(batch: B)
    | Finishing
    | Added

  /** `taken` records the batches a worker has consumed; no step reads it. */
  datatype Worker<W, B> = Worker(phase: Phase<W, B>, local: nat, taken: seq<B>)

  datatype Claim<B> = Claim(who: nat, batch: B)

  /** `start` and `log` record what was published and claimed; no step reads them. */
  datatype State<W, B> = State(
    work: Option<W>,
    workers: map<nat, Worker<W, B>>,
    total: nat,
    failed: bool,
    start: Option<W>,
    log: seq<Claim<B>>)

  datatype Action<W> =
    | Join(i: nat)
    | Publish(i: nat, words: W)
    | Snapshot(i: nat)
    | Prepare(i: nat)
    | TryClaim(i: nat)
    | Consume(i: nat)
    | Accumulate(i: nat)
    | Fail(i: nat)

  ghost predicate Initial<W, B>(s: State<W, B>) {
    s == State(None, map[], 0, false, None, [])
  }

  ghost predicate Enabled<W, B>(s: State<W, B>, a: Action<W>) {
    match a
    case Join(i) => i !in s.workers
    case Publish(i, _) => i in s.workers && s.workers[i].phase.Idle?
    case Snapshot(i) => i in s.workers && s.workers[i].phase.Idle?
    case Prepare(i) => i in s.workers && s.workers[i].phase.Snapped?
    case TryClaim(i) => i in s.workers && s.workers[i].phase.Ready?
    case Consume(i) => i in s.workers && s.workers[i].phase.Holding?
    case Accumulate(i) => i in s.workers && s.workers[i].phase.Finishing?
    case Fail(i) => i in s.workers
  }

  ghost function Move<W, B>(s: State<W, B>, i: nat, phase: Phase<W, B>): State<W, B>
    requires i in s.workers
  {
    s.(workers := s.workers[i := s.workers[i].(phase := phase)])
  }

  ghost function Fresh<W, B>(s: State<W, B>, i: nat): State<W, B> {
    s.(workers := s.workers[i := Worker(Idle, 0, [])])
  }

  ghost function Used<W, B>(job: Job<W, B>, w: Worker<W, B>): Worker<W, B>
    requires w.phase.Holding?
  {
    Worker(Idle, w.local + job.weight(w.phase.batch), w.taken + [w.phase.batch])
  }

  ghost function Apply<W, B>(job: Job<W, B>, s: State<W, B>, a: Action<W>): State<W, B>
    requires Enabled(s, a)
  {
    match a
    case Join(i) => Fresh(s, i)
    case Publish(i, words) => if s.work.None? then s.(work := Some(words), start := Some(words)) else s
    case Snapshot(i) =>
      if s.work.None? then s.(failed := true) else Move(s, i, Snapped(s.work.value))
    case Prepare(i) =>
      var words := s.workers[i].phase.words;
      (match job.prepare(words)
       case Finished => Move(s, i, Finishing)
       case Corrupt => s.(failed := true)
       case Batch(next, batch) => Move(s, i, Ready(words, next, batch)))
    case TryClaim(i) =>
      var p := s.workers[i].phase;
      if s.work == Some(p.words) then
        Move(s, i, Holding(p.batch)).(work := Some(p.next), log := s.log + [Claim(i, p.batch)])
      else Move(s, i, Idle)
    case Consume(i) => s.(workers := s.workers[i := Used(job, s.workers[i])])
    case Accumulate(i) => Move(s, i, Added).(total := s.total + s.workers[i].local)
    case Fail(i) => s.(failed := true)
  }

  // ----- the sequential scan -----

  /** The batches one reader alone would get from `words`, up to the end. */
  ghost predicate Yields<W, B>(job: Job<W, B>, words: W, batches: seq<B>)
    decreases |batches|
  {
    var p := job.prepare(words);
    if batches == [] then p.Finished?
    else p.Batch? && p.batch == batches[0] && Yields(job, p.next, batches[1..])
  }

  /** From `a`, the next |batches| claims in order lead to `b`. */
  ghost predicate Leads<W, B>(job: Job<W, B>, a: W, batches: seq<B>, b: W)
    decreases |batches|
  {
    if batches == [] then a == b
    else
      var p := job.prepare(a);
      p.Batch? && p.batch == batches[0] && Leads(job, p.next, batches[1..], b)
  }

  lemma {:induction false} LeadsOneMore<W, B>(job: Job<W, B>, a: W, batches: seq<B>, b: W)
    requires Leads(job, a, batches, b) && job.prepare(b).Batch?
    ensures Leads(job, a, batches + [job.prepare(b).batch], job.prepare(b).next)
    decreases |batches|
  {
    var more := batches + [job.prepare(b).batch];
    if batches == [] {
      assert more[1..] == [];
    } else {
      LeadsOneMore(job, job.prepare(a).next, batches[1..], b);
      assert more[1..] == batches[1..] + [job.prepare(b).batch];
    }
  }

  lemma {:induction false} LeadsToEnd<W, B>(job: Job<W, B>, a: W, batches: seq<B>, b: W)
    requires Leads(job, a, batches, b) && job.prepare(b).Finished?
    ensures Yields(job, a, batches)
    decreases |batches|
  {
    if batches != [] {
      LeadsToEnd(job, job.prepare(a).next, batches[1..], b);
    }
  }

  lemma {:induction false} YieldsOnce<W, B>(job: Job<W, B>, a: W, x: seq<B>, y: seq<B>)
    requires Yields(job, a, x) && Yields(job, a, y)
    ensures x == y
    decreases |x|
  {
    if x != [] {
      YieldsOnce(job, job.prepare(a).next, x[1..], y[1..]);
      assert x == [x[0]] + x[1..] && y == [y[0]] + y[1..];
    }
  }

  // ----- accounting -----

  ghost function BatchesOf<B>(log: seq<Claim<B>>): seq<B> {
    seq(|log|, k requires 0 <= k < |log| => log[k].batch)
  }

  /** What the claims of the workers in `who` contribute. */
  ghost function Share<W, B>(job: Job<W, B>, log: seq<Claim<B>>, who: set<nat>): nat {
    if log == [] then 0
    else
      var c := log[|log| - 1];
      Share(job, log[..|log| - 1], who) + if c.who in who then job.weight(c.batch) else 0
  }

  ghost function SumOf<W, B>(job: Job<W, B>, batches: seq<B>): nat {
    if batches == [] then 0 else SumOf(job, batches[..|batches| - 1]) + job.weight(batches[|batches| - 1])
  }

  lemma {:induction false} ShareSplits<W, B>(job: Job<W, B>, log: seq<Claim<B>>, a: set<nat>, i: nat)
    requires i !in a
    ensures Share(job, log, a + {i}) == Share(job, log, a) + Share(job, log, {i})
    decreases |log|
  {
    if log != [] {
      ShareSplits(job, log[..|log| - 1], a, i);
    }
  }

  lemma {:induction false} ShareOfAll<W, B>(job: Job<W, B>, log: seq<Claim<B>>, who: set<nat>)
    requires forall k | 0 <= k < |log| :: log[k].who in who
    ensures Share(job, log, who) == SumOf(job, BatchesOf(log))
    decreases |log|
  {
    if log != [] {
      ShareOfAll(job, log[..|log| - 1], who);
      assert BatchesOf(log)[..|log| - 1] == BatchesOf(log[..|log| - 1]);
    }
  }

  /** The batches claimed by one worker, in order. */
  ghost function ClaimsBy<B>(log: seq<Claim<B>>, i: nat): seq<B> {
    if log == [] then []
    else
      var c := log[|log| - 1];
      ClaimsBy(log[..|log| - 1], i) + if c.who == i then [c.batch] else []
  }

  lemma ShareSnoc<W, B>(job: Job<W, B>, log: seq<Claim<B>>, c: Claim<B>, who: set<nat>)
    ensures Share(job, log + [c], who) == Share(job, log, who) + if c.who in who then job.weight(c.batch) else 0
    ensures forall i: nat :: ClaimsBy(log + [c], i) == ClaimsBy(log, i) + if c.who == i then [c.batch] else []
  {
    assert (log + [c])[..|log|] == log;
  }

  // ----- what every step keeps -----

  ghost predicate WorkerOk<W, B>(job: Job<W, B>, s: State<W, B>, i: nat)
    requires i in s.workers
  {
    var w := s.workers[i];
    && w.local + (if w.phase.Holding? then job.weight(w.phase.batch) else 0) == Share(job, s.log, {i})
    && w.taken + (if w.phase.Holding? then [w.phase.batch] else []) == ClaimsBy(s.log, i)
    && (w.phase.Ready? ==> job.prepare(w.phase.words) == Batch(w.phase.next, w.phase.batch))
    && (w.phase.Snapped? || w.phase.Ready? || w.phase.Holding? ==> s.start.Some?)
    && (w.phase.Finishing? || w.phase.Added? ==> s.work.Some? && job.prepare(s.work.value).Finished?)
  }

  ghost function AddedIn<W, B>(s: State<W, B>): set<nat> {
    set i | i in s.workers && s.workers[i].phase.Added?
  }

  /** A snapshot still held is the shared state or one the claims have since replaced. */
  ghost predicate SnapOk<W, B>(job: Job<W, B>, s: State<W, B>, i: nat)
    requires i in s.workers
  {
    var p := s.workers[i].phase;
    p.Snapped? ==> s.work == Some(p.words) || job.prepare(p.words).Batch?
  }

  ghost predicate Inv<W, B>(job: Job<W, B>, s: State<W, B>) {
    && (s.start.Some? <==> s.work.Some?)
    && (s.work.None? ==> s.log == [])
    && (s.work.Some? ==> Leads(job, s.start.value, BatchesOf(s.log), s.work.value))
    && (forall k | 0 <= k < |s.log| :: s.log[k].who in s.workers)
    && (forall i | i in s.workers :: WorkerOk(job, s, i) && SnapOk(job, s, i))
    && s.total == Share(job, s.log, AddedIn(s))
  }

  /** A worker's own move that leaves the shared work and the log alone. */
  lemma MoveKeeps<W, B>(job: Job<W, B>, s: State<W, B>, i: nat, w: Worker<W, B>)
    requires Inv(job, s) && i in s.workers && !s.workers[i].phase.Added? && !w.phase.Added?
    requires var t := s.(workers := s.workers[i := w]); WorkerOk(job, t, i) && SnapOk(job, t, i)
    ensures Inv(job, s.(workers := s.workers[i := w]))
  {
    var t := s.(workers := s.workers[i := w]);
    assert AddedIn(t) == AddedIn(s);
    forall j | j in t.workers ensures WorkerOk(job, t, j) && SnapOk(job, t, j) {
      assert j != i ==> WorkerOk(job, s, j) && SnapOk(job, s, j);
    }
  }

  lemma JoinKeeps<W, B>(job: Job<W, B>, s: State<W, B>, i: nat)
    requires Inv(job, s) && i !in s.workers
    ensures Inv(job, Fresh(s, i))
  {
    var t := Fresh(s, i);
    assert AddedIn(t) == AddedIn(s);
    NoShare(job, s.log, i);
    forall j | j in t.workers ensures WorkerOk(job, t, j) && SnapOk(job, t, j) {
      assert j != i ==> WorkerOk(job, s, j) && SnapOk(job, s, j);
    }
  }

  lemma {:induction false} NoShare<W, B>(job: Job<W, B>, log: seq<Claim<B>>, i: nat)
    requires forall k | 0 <= k < |log| :: log[k].who != i
    ensures Share(job, log, {i}) == 0 && ClaimsBy(log, i) == []
    decreases |log|
  {
    if log != [] {
      NoShare(job, log[..|log| - 1], i);
    }
  }

  lemma ClaimKeeps<W, B>(job: Job<W, B>, s: State<W, B>, i: nat)
    requires Inv(job, s) && i in s.workers && s.workers[i].phase.Ready? && s.work == Some(s.workers[i].phase.words)
    ensures Inv(job, Apply(job, s, TryClaim(i)))
  {
    var t := Apply(job, s, TryClaim(i));
    var p := s.workers[i].phase;
    var c := Claim(i, p.batch);
    assert WorkerOk(job, s, i);
    LeadsOneMore(job, s.start.value, BatchesOf(s.log), s.work.value);
    assert BatchesOf(t.log) == BatchesOf(s.log) + [p.batch];
    assert AddedIn(t) == AddedIn(s);
    ShareSnoc(job, s.log, c, AddedIn(s));
    forall j | j in t.workers ensures WorkerOk(job, t, j) && SnapOk(job, t, j) {
      ShareSnoc(job, s.log, c, {j});
      assert WorkerOk(job, s, j) && SnapOk(job, s, j);
    }
  }

  lemma AccumulateKeeps<W, B>(job: Job<W, B>, s: State<W, B>, i: nat)
    requires Inv(job, s) && Enabled(s, Accumulate(i))
    ensures Inv(job, Apply(job, s, Accumulate(i)))
  {
    var t := Apply(job, s, Accumulate(i));
    assert AddedIn(t) == AddedIn(s) + {i};
    ShareSplits(job, s.log, AddedIn(s), i);
    forall j | j in t.workers ensures WorkerOk(job, t, j) && SnapOk(job, t, j) {
      assert WorkerOk(job, s, j) && SnapOk(job, s, j);
    }
  }

  lemma SharedKeeps<W, B>(job: Job<W, B>, s: State<W, B>, t: State<W, B>)
    requires Inv(job, s) && t.workers == s.workers && t.total == s.total && t.log == s.log
    requires (t.work == s.work && t.start == s.start) || (s.work.None? && t.work.Some? && t.start == t.work)
    ensures Inv(job, t)
  {
    assert AddedIn(t) == AddedIn(s);
    assert s.work.None? ==> BatchesOf(t.log) == [];
    forall j | j in t.workers ensures WorkerOk(job, t, j) && SnapOk(job, t, j) {
      assert WorkerOk(job, s, j) && SnapOk(job, s, j);
    }
  }

  /** Every step of every participant keeps the accounting. */
  lemma StepKeepsInv<W, B>(job: Job<W, B>, s: State<W, B>, a: Action<W>)
    requires Inv(job, s) && Enabled(s, a)
    ensures Inv(job, Apply(job, s, a))
  {
    if !a.Join? {
      assert WorkerOk(job, s, a.i) && SnapOk(job, s, a.i);
    }
    match a
    case Join(i) => JoinKeeps(job, s, i);
    case Publish(i, words) => SharedKeeps(job, s, Apply(job, s, a));
    case Snapshot(i) =>
      if s.work.None? {
        SharedKeeps(job, s, Apply(job, s, a));
      } else {
        MoveKeeps(job, s, i, s.workers[i].(phase := Snapped(s.work.value)));
      }
    case Prepare(i) =>
      var words := s.workers[i].phase.words;
      match job.prepare(words) {
        case Finished => MoveKeeps(job, s, i, s.workers[i].(phase := Finishing));
        case Corrupt => SharedKeeps(job, s, Apply(job, s, a));
        case Batch(next, batch) => MoveKeeps(job, s, i, s.workers[i].(phase := Ready(words, next, batch)));
      }
    case TryClaim(i) =>
      if s.work == Some(s.workers[i].phase.words) {
        ClaimKeeps(job, s, i);
      } else {
        MoveKeeps(job, s, i, s.workers[i].(phase := Idle));
      }
    case Consume(i) => MoveKeeps(job, s, i, Used(job, s.workers[i]));
    case Accumulate(i) => AccumulateKeeps(job, s, i);
    case Fail(i) => SharedKeeps(job, s, Apply(job, s, a));
  }

  // ----- whole runs -----

  ghost predicate IsRun<W, B>(job: Job<W, B>, states: seq<State<W, B>>, actions: seq<Action<W>>) {
    && |states| == |actions| + 1 && Initial(states[0])
    && (forall k | 0 <= k < |actions| ::
          Enabled(states[k], actions[k]) && states[k + 1] == Apply(job, states[k], actions[k]))
  }

  lemma {:induction false} InvAlways<W, B>(job: Job<W, B>, states: seq<State<W, B>>, actions: seq<Action<W>>, k: nat)
    requires IsRun(job, states, actions) && k < |states|
    ensures Inv(job, states[k])
    decreases k
  {
    if k == 0 {
      assert BatchesOf(states[0].log) == [];
    } else {
      InvAlways(job, states, actions, k - 1);
      StepKeepsInv(job, states[k - 1], actions[k - 1]);
    }
  }

  /**
   When every participant has added its share, the claims are exactly the sequential batches,
   each owned by one participant, and the total is the sequential total.
   */
  lemma AllAddedIsSequential<W, B>(job: Job<W, B>, states: seq<State<W, B>>, actions: seq<Action<W>>, k: nat)
    requires IsRun(job, states, actions) && k < |states|
    requires states[k].workers != map[] && forall i | i in states[k].workers :: states[k].workers[i].phase.Added?
    ensures states[k].start.Some? && Yields(job, states[k].start.value, BatchesOf(states[k].log))
    ensures states[k].total == SumOf(job, BatchesOf(states[k].log))
    ensures forall i | i in states[k].workers :: states[k].workers[i].taken == ClaimsBy(states[k].log, i)
    ensures forall c | c in states[k].log :: c.who in states[k].workers
  {
    InvAlways(job, states, actions, k);
    var s := states[k];
    var i :| i in s.workers;
    assert WorkerOk(job, s, i);
    LeadsToEnd(job, s.start.value, BatchesOf(s.log), s.work.value);
    ShareOfAll(job, s.log, AddedIn(s));
  }

  /** Two complete runs over the same work agree, however their participants interleaved. */
  lemma RunsAgree<W, B>(job: Job<W, B>, a: State<W, B>, b: State<W, B>)
    requires Inv(job, a) && Inv(job, b) && a.start == b.start
    requires a.workers != map[] && forall i | i in a.workers :: a.workers[i].phase.Added?
    requires b.workers != map[] && forall i | i in b.workers :: b.workers[i].phase.Added?
    ensures BatchesOf(a.log) == BatchesOf(b.log) && a.total == b.total
  {
    var i :| i in a.workers;
    var j :| j in b.workers;
    assert WorkerOk(job, a, i) && WorkerOk(job, b, j);
    LeadsToEnd(job, a.start.value, BatchesOf(a.log), a.work.value);
    LeadsToEnd(job, b.start.value, BatchesOf(b.log), b.work.value);
    YieldsOnce(job, a.start.value, BatchesOf(a.log), BatchesOf(b.log));
    ShareOfAll(job, a.log, AddedIn(a));
    ShareOfAll(job, b.log, AddedIn(b));
  }
}
