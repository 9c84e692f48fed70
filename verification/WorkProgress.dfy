/**
 The claiming protocol gets its work done: nobody waits for anybody, a claim that nobody
 else forestalled succeeds, and every way of dividing the batches among the readers happens.
 */
module WorkProgress {
  import opened Outcomes
  import opened WorkClaims

  /** The state after all `actions`, if each is enabled when its turn comes. */
  ghost function Steps<W, B>(job: Job<W, B>, s: State<W, B>, actions: seq<Action<W>>): Option<State<W, B>>
    decreases |actions|
  {
    if actions == [] then Some(s)
    else if Enabled(s, actions[0]) then Steps(job, Apply(job, s, actions[0]), actions[1..])
    else None
  }

  lemma StepsCons<W, B>(job: Job<W, B>, s: State<W, B>, a: Action<W>, rest: seq<Action<W>>)
    requires Enabled(s, a)
    ensures Steps(job, s, [a] + rest) == Steps(job, Apply(job, s, a), rest)
  {
    assert ([a] + rest)[1..] == rest;
  }

  lemma {:induction false} StepsJoin<W, B>(job: Job<W, B>, s: State<W, B>, a: seq<Action<W>>, b: seq<Action<W>>)
    requires Steps(job, s, a).Some?
    ensures Steps(job, s, a + b) == Steps(job, Steps(job, s, a).value, b)
    decreases |a|
  {
    if a == [] {
      assert a + b == b;
    } else {
      StepsJoin(job, Apply(job, s, a[0]), a[1..], b);
      assert a + b == [a[0]] + (a[1..] + b);
      StepsCons(job, s, a[0], a[1..] + b);
    }
  }

  lemma {:induction false} StepsKeepInv<W, B>(job: Job<W, B>, s: State<W, B>, actions: seq<Action<W>>)
    requires Inv(job, s) && Steps(job, s, actions).Some?
    ensures Inv(job, Steps(job, s, actions).value)
    decreases |actions|
  {
    if actions != [] {
      StepKeepsInv(job, s, actions[0]);
      StepsKeepInv(job, Apply(job, s, actions[0]), actions[1..]);
    }
  }

  /** The states that `actions` pass through. */
  lemma {:induction false} StepsAreRun<W, B>(job: Job<W, B>, s: State<W, B>, actions: seq<Action<W>>)
      returns (states: seq<State<W, B>>)
    requires Steps(job, s, actions).Some?
    ensures |states| == |actions| + 1 && states[0] == s && Some(states[|actions|]) == Steps(job, s, actions)
    ensures forall k | 0 <= k < |actions| ::
              Enabled(states[k], actions[k]) && states[k + 1] == Apply(job, states[k], actions[k])
    decreases |actions|
  {
    if actions == [] {
      states := [s];
    } else {
      var rest := StepsAreRun(job, Apply(job, s, actions[0]), actions[1..]);
      states := [s] + rest;
      forall k | 0 <= k < |actions|
        ensures Enabled(states[k], actions[k]) && states[k + 1] == Apply(job, states[k], actions[k])
      {
        assert k > 0 ==> states[k] == rest[k - 1] && actions[k] == actions[1..][k - 1];
      }
    }
  }

  // ----- one worker -----

  /** What a worker does by itself to get on with the work. */
  ghost predicate OwnSteps<W>(actions: seq<Action<W>>, i: nat) {
    forall k | 0 <= k < |actions| ::
      actions[k].i == i && !actions[k].Join? && !actions[k].Publish? && !actions[k].Fail?
  }

  ghost function ClaimsOf<B>(i: nat, batches: seq<B>): seq<Claim<B>> {
    seq(|batches|, k requires 0 <= k < |batches| => Claim(i, batches[k]))
  }

  /** Worker `i` has claimed `batches` on the way from `s` to `t`, added its share, and nobody else moved. */
  ghost predicate FinishedBy<W, B>(job: Job<W, B>, s: State<W, B>, t: State<W, B>, i: nat, batches: seq<B>) {
    && t.log == s.log + ClaimsOf(i, batches)
    && t.workers.Keys == s.workers.Keys && i in t.workers && t.workers[i].phase.Added?
    && (forall j | j in s.workers && j != i :: t.workers[j] == s.workers[j])
    && t.start == s.start && t.failed == s.failed
    && t.work.Some? && job.prepare(t.work.value).Finished?
  }

  ghost predicate Finishes<W, B>(job: Job<W, B>, s: State<W, B>, actions: seq<Action<W>>, i: nat, batches: seq<B>) {
    && OwnSteps(actions, i)
    && Steps(job, s, actions).Some? && FinishedBy(job, s, Steps(job, s, actions).value, i, batches)
  }

  ghost function Round<W>(i: nat): seq<Action<W>> {
    [Snapshot(i), Prepare(i), TryClaim(i), Consume(i)]
  }

  /** The state after `i` alone took the next batch. */
  ghost function Served<W, B>(job: Job<W, B>, s: State<W, B>, i: nat): State<W, B>
    requires i in s.workers && s.work.Some? && job.prepare(s.work.value).Batch?
  {
    var p := job.prepare(s.work.value);
    var w := s.workers[i];
    s.(work := Some(p.next), log := s.log + [Claim(i, p.batch)],
       workers := s.workers[i := Worker(Idle, w.local + job.weight(p.batch), w.taken + [p.batch])])
  }

  lemma RoundServes<W, B>(job: Job<W, B>, s: State<W, B>, i: nat)
    requires i in s.workers && s.workers[i].phase.Idle? && s.work.Some? && job.prepare(s.work.value).Batch?
    ensures Steps(job, s, Round(i)) == Some(Served(job, s, i))
  {
    hide Steps;
    var p := job.prepare(s.work.value);
    var none: seq<Action<W>> := [];
    var a := Apply(job, s, Snapshot(i));
    var b := Apply(job, a, Prepare(i));
    var c := Apply(job, b, TryClaim(i));
    var d := Apply(job, c, Consume(i));
    assert d.workers == Served(job, s, i).workers;
    assert Round(i) == [Snapshot(i)] + ([Prepare(i)] + ([TryClaim(i)] + ([Consume(i)] + none)));
    StepsCons(job, s, Snapshot(i), [Prepare(i)] + ([TryClaim(i)] + ([Consume(i)] + none)));
    StepsCons(job, a, Prepare(i), [TryClaim(i)] + ([Consume(i)] + none));
    StepsCons(job, b, TryClaim(i), [Consume(i)] + none);
    StepsCons(job, c, Consume(i), none);
    NoSteps(job, d);
  }

  lemma NoSteps<W, B>(job: Job<W, B>, s: State<W, B>)
    ensures Steps(job, s, []) == Some(s)
  {
  }

  /** One own step, and then what finishes from there. */
  lemma StepFinishes<W, B>(job: Job<W, B>, s: State<W, B>, a: Action<W>, rest: seq<Action<W>>, i: nat,
      now: seq<B>, later: seq<B>)
    requires Enabled(s, a) && OwnSteps([a], i) && i in s.workers
    requires var t := Apply(job, s, a);
      && t.log == s.log + ClaimsOf(i, now) && t.workers.Keys == s.workers.Keys
      && (forall j | j in s.workers && j != i :: t.workers[j] == s.workers[j])
      && t.start == s.start && t.failed == s.failed
      && Finishes(job, t, rest, i, later)
    ensures Finishes(job, s, [a] + rest, i, now + later)
  {
    hide Steps;
    assert [a][0].i == i;
    StepsCons(job, s, a, rest);
    assert ClaimsOf(i, now + later) == ClaimsOf(i, now) + ClaimsOf(i, later);
  }

  /** From any state, an idle worker can take all that is left, batch by batch, and add its share. */
  lemma {:induction false} IdleFinishes<W, B>(job: Job<W, B>, s: State<W, B>, i: nat, batches: seq<B>)
      returns (actions: seq<Action<W>>)
    requires i in s.workers && s.workers[i].phase.Idle?
    requires s.work.Some? && Yields(job, s.work.value, batches)
    ensures Finishes(job, s, actions, i, batches)
    decreases |batches|
  {
    hide Steps;
    if batches == [] {
      var a := Apply(job, s, Snapshot(i));
      var b := Apply(job, a, Prepare(i));
      actions := FinishingFinishes(job, b, i);
      StepFinishes(job, a, Prepare(i), actions, i, [], []);
      StepFinishes(job, s, Snapshot(i), [Prepare(i)] + actions, i, [], []);
      actions := [Snapshot(i)] + ([Prepare(i)] + actions);
      assert batches + batches == batches;
    } else {
      var t := Served(job, s, i);
      var rest := IdleFinishes(job, t, i, batches[1..]);
      RoundServes(job, s, i);
      StepsJoin(job, s, Round(i), rest);
      actions := Round(i) + rest;
      assert ClaimsOf(i, batches) == ClaimsOf(i, batches[..1]) + ClaimsOf(i, batches[1..]);
      assert t.log == s.log + ClaimsOf(i, batches[..1]);
    }
  }

  lemma FinishingFinishes<W, B>(job: Job<W, B>, s: State<W, B>, i: nat) returns (actions: seq<Action<W>>)
    requires i in s.workers && s.workers[i].phase.Finishing?
    requires s.work.Some? && job.prepare(s.work.value).Finished?
    ensures Finishes(job, s, actions, i, [])
  {
    hide Steps;
    var none: seq<Action<W>> := [];
    StepsCons(job, s, Accumulate(i), none);
    NoSteps(job, Apply(job, s, Accumulate(i)));
    actions := [Accumulate(i)];
    assert actions == [Accumulate(i)] + none;
  }

  lemma HoldingFinishes<W, B>(job: Job<W, B>, s: State<W, B>, i: nat, batches: seq<B>)
      returns (actions: seq<Action<W>>)
    requires i in s.workers && s.workers[i].phase.Holding?
    requires s.work.Some? && Yields(job, s.work.value, batches)
    ensures Finishes(job, s, actions, i, batches)
  {
    actions := IdleFinishes(job, Apply(job, s, Consume(i)), i, batches);
    StepFinishes(job, s, Consume(i), actions, i, [], batches);
    actions := [Consume(i)] + actions;
    assert [] + batches == batches;
  }

  /** A claim prepared from the shared words succeeds; one that was forestalled costs only a new snapshot. */
  lemma ReadyFinishes<W, B>(job: Job<W, B>, s: State<W, B>, i: nat, batches: seq<B>)
      returns (actions: seq<Action<W>>)
    requires i in s.workers && s.workers[i].phase.Ready?
    requires job.prepare(s.workers[i].phase.words) == Batch(s.workers[i].phase.next, s.workers[i].phase.batch)
    requires s.work.Some? && Yields(job, s.work.value, batches)
    ensures Finishes(job, s, actions, i, batches)
  {
    var t := Apply(job, s, TryClaim(i));
    if s.work == Some(s.workers[i].phase.words) {
      actions := HoldingFinishes(job, t, i, batches[1..]);
      StepFinishes(job, s, TryClaim(i), actions, i, batches[..1], batches[1..]);
      assert batches[..1] + batches[1..] == batches;
    } else {
      actions := IdleFinishes(job, t, i, batches);
      StepFinishes(job, s, TryClaim(i), actions, i, [], batches);
      assert [] + batches == batches;
    }
    actions := [TryClaim(i)] + actions;
  }

  /**
   From every reachable state, whatever a worker was doing, it can finish by its own steps
   alone: they claim exactly what is left, in order, and then add its share.
   */
  lemma WorkerCanFinish<W, B>(job: Job<W, B>, s: State<W, B>, i: nat, batches: seq<B>)
      returns (actions: seq<Action<W>>)
    requires Inv(job, s) && i in s.workers && !s.workers[i].phase.Added?
    requires s.work.Some? && Yields(job, s.work.value, batches)
    ensures Finishes(job, s, actions, i, batches)
  {
    hide Steps, FinishedBy, Leads, Share, ClaimsBy, AddedIn;
    assert WorkerOk(job, s, i) && SnapOk(job, s, i);
    match s.workers[i].phase
    case Idle => actions := IdleFinishes(job, s, i, batches);
    case Snapped(words) =>
      var t := Apply(job, s, Prepare(i));
      if job.prepare(words).Batch? {
        actions := ReadyFinishes(job, t, i, batches);
      } else {
        actions := FinishingFinishes(job, t, i);
      }
      StepFinishes(job, s, Prepare(i), actions, i, [], batches);
      actions := [Prepare(i)] + actions;
      assert [] + batches == batches;
    case Ready(_, _, _) => actions := ReadyFinishes(job, s, i, batches);
    case Holding(_) => actions := HoldingFinishes(job, s, i, batches);
    case Finishing => actions := FinishingFinishes(job, s, i);
  }

  // ----- all workers -----

  ghost predicate AllAdded<W, B>(s: State<W, B>) {
    forall i | i in s.workers :: s.workers[i].phase.Added?
  }

  ghost function Unfinished<W, B>(s: State<W, B>): set<nat> {
    set i | i in s.workers && !s.workers[i].phase.Added?
  }

  /** Nobody joined, nothing failed, and `batches` were claimed on the way from `s` to `t`. */
  ghost predicate Completed<W, B>(s: State<W, B>, t: State<W, B>, batches: seq<B>) {
    && AllAdded(t) && t.workers.Keys == s.workers.Keys && t.start == s.start && t.failed == s.failed
    && s.log <= t.log && BatchesOf(t.log) == BatchesOf(s.log) + batches
  }

  lemma NothingLeft<W, B>(job: Job<W, B>, s: State<W, B>, batches: seq<B>)
    requires Unfinished(s) == {} && s.workers != map[] && s.work.Some? && Yields(job, s.work.value, batches)
    requires Inv(job, s)
    ensures batches == [] && Completed(s, s, batches)
  {
    var i :| i in s.workers;
    assert i !in Unfinished(s);
    assert WorkerOk(job, s, i);
    assert forall j | j in s.workers :: j !in Unfinished(s);
  }

  lemma OneLess<W, B>(job: Job<W, B>, s: State<W, B>, t: State<W, B>, i: nat, batches: seq<B>)
    requires i in Unfinished(s) && FinishedBy(job, s, t, i, batches)
    ensures Unfinished(t) == Unfinished(s) - {i}
    ensures BatchesOf(t.log) == BatchesOf(s.log) + batches && s.log <= t.log
    ensures t.work.Some? && Yields(job, t.work.value, [])
  {
  }

  /** No reachable state is a dead end: all workers can still add their shares. */
  lemma {:induction false} AllCanFinish<W, B>(job: Job<W, B>, s: State<W, B>, batches: seq<B>)
      returns (actions: seq<Action<W>>)
    requires s.workers != map[] && s.work.Some? && Yields(job, s.work.value, batches)
    requires Inv(job, s)
    ensures Steps(job, s, actions).Some? && Completed(s, Steps(job, s, actions).value, batches)
    decreases |Unfinished(s)|
  {
    hide Steps, Inv, Yields, Unfinished, BatchesOf, OwnSteps;
    if Unfinished(s) == {} {
      NothingLeft(job, s, batches);
      actions := [];
      NoSteps(job, s);
    } else {
      var i :| i in Unfinished(s);
      assert i in s.workers && !s.workers[i].phase.Added? by {
        InUnfinished(s, i);
      }
      var first := WorkerCanFinish(job, s, i, batches);
      var t := Steps(job, s, first).value;
      StepsKeepInv(job, s, first);
      OneLess(job, s, t, i, batches);
      assert i in t.workers;
      var rest := AllCanFinish(job, t, []);
      StepsJoin(job, s, first, rest);
      actions := first + rest;
      assert BatchesOf(t.log) + [] == BatchesOf(t.log);
    }
  }

  lemma InUnfinished<W, B>(s: State<W, B>, i: nat)
    requires i in Unfinished(s)
    ensures i in s.workers && !s.workers[i].phase.Added?
  {
  }

  // ----- every division happens -----

  ghost function Claims<B>(owners: seq<nat>, batches: seq<B>): seq<Claim<B>>
    requires |owners| == |batches|
  {
    seq(|batches|, k requires 0 <= k < |batches| => Claim(owners[k], batches[k]))
  }

  ghost predicate Resting<W, B>(s: State<W, B>) {
    forall i | i in s.workers :: s.workers[i].phase.Idle?
  }

  /** Idle workers can take the batches in turns, whoever's turn it is. */
  lemma {:induction false} TurnsHappen<W, B>(job: Job<W, B>, s: State<W, B>, owners: seq<nat>, batches: seq<B>)
      returns (actions: seq<Action<W>>)
    requires Resting(s) && s.work.Some? && Yields(job, s.work.value, batches)
    requires |owners| == |batches| && forall k | 0 <= k < |owners| :: owners[k] in s.workers
    ensures Steps(job, s, actions).Some?
    ensures var t := Steps(job, s, actions).value;
      && t.log == s.log + Claims(owners, batches) && t.workers.Keys == s.workers.Keys
      && t.start == s.start && t.failed == s.failed
      && t.work.Some? && job.prepare(t.work.value).Finished?
    decreases |batches|
  {
    hide Steps;
    if batches == [] {
      actions := [];
      NoSteps(job, s);
    } else {
      var i := owners[0];
      var t := Served(job, s, i);
      RoundServes(job, s, i);
      assert Resting(t);
      var rest := TurnsHappen(job, t, owners[1..], batches[1..]);
      StepsJoin(job, s, Round(i), rest);
      actions := Round(i) + rest;
      assert Claims(owners, batches) == [Claim(i, batches[0])] + Claims(owners[1..], batches[1..]);
    }
  }

  ghost function Newcomers<W, B>(team: set<nat>): map<nat, Worker<W, B>> {
    map i | i in team :: Worker(Idle, 0, [])
  }

  lemma {:induction false} TeamJoins<W, B>(job: Job<W, B>, s: State<W, B>, team: set<nat>)
      returns (actions: seq<Action<W>>)
    requires team !! s.workers.Keys
    ensures Steps(job, s, actions) == Some(s.(workers := s.workers + Newcomers(team)))
    decreases team
  {
    hide Steps;
    if team == {} {
      actions := [];
      NoSteps(job, s);
      assert s.workers + Newcomers({}) == s.workers;
    } else {
      var i :| i in team;
      var t := Apply(job, s, Join(i));
      var rest := TeamJoins(job, t, team - {i});
      StepsCons(job, s, Join(i), rest);
      actions := [Join(i)] + rest;
      assert t.workers + Newcomers(team - {i}) == s.workers + Newcomers(team);
    }
  }

  lemma InitialInv<W, B>(job: Job<W, B>, s: State<W, B>)
    requires Initial(s)
    ensures Inv(job, s)
  {
    assert BatchesOf(s.log) == [];
  }

  lemma DoneYields<W, B>(job: Job<W, B>, s: State<W, B>)
    requires s.work.Some? && job.prepare(s.work.value).Finished?
    ensures Yields(job, s.work.value, [])
  {
  }

  /** The team joins and one member publishes the work. */
  lemma Opening<W, B>(job: Job<W, B>, s: State<W, B>, words: W, team: set<nat>)
      returns (actions: seq<Action<W>>, u: State<W, B>)
    requires Initial(s) && team != {}
    ensures Steps(job, s, actions) == Some(u)
    ensures u == s.(workers := Newcomers(team), work := Some(words), start := Some(words))
  {
    hide Steps;
    var joins := TeamJoins(job, s, team);
    var t := s.(workers := s.workers + Newcomers(team));
    assert s.workers + Newcomers(team) == Newcomers(team);
    var i :| i in team;
    u := Apply(job, t, Publish(i, words));
    StepsCons(job, t, Publish(i, words), []);
    StepsJoin(job, s, joins, [Publish(i, words)] + []);
    NoSteps(job, u);
    actions := joins + ([Publish(i, words)] + []);
  }

  /** A complete run of `team` over `words`, in which batch k went to `owners[k]`. */
  ghost predicate Complete<W, B>(job: Job<W, B>, states: seq<State<W, B>>, actions: seq<Action<W>>,
      team: set<nat>, words: W, owners: seq<nat>, batches: seq<B>)
    requires |owners| == |batches|
  {
    && IsRun(job, states, actions)
    && var last := states[|actions|];
    && last.start == Some(words) && last.workers.Keys == team && AllAdded(last) && !last.failed
    && last.log == Claims(owners, batches)
  }

  /**
   For all work that yields batches, every team and every assignment of the batches to its
   members, some run ends with all members added and exactly these claims.
   */
  lemma EveryDivisionHappens<W, B>(job: Job<W, B>, words: W, batches: seq<B>, team: set<nat>, owners: seq<nat>)
      returns (states: seq<State<W, B>>, actions: seq<Action<W>>)
    requires Yields(job, words, batches) && team != {}
    requires |owners| == |batches| && forall k | 0 <= k < |owners| :: owners[k] in team
    ensures Complete(job, states, actions, team, words, owners, batches)
  {
    hide Steps, Inv, Yields, Apply;
    var s: State<W, B> := State(None, map[], 0, false, None, []);
    InitialInv(job, s);
    var opening, u := Opening(job, s, words, team);
    var turns := TurnsHappen(job, u, owners, batches);
    var v := Steps(job, u, turns).value;
    StepsJoin(job, s, opening, turns);
    StepsKeepInv(job, s, opening + turns);
    DoneYields(job, v);
    var i :| i in team;
    assert i in v.workers;
    var ends := AllCanFinish(job, v, []);
    StepsJoin(job, s, opening + turns, ends);
    actions := (opening + turns) + ends;
    states := StepsAreRun(job, s, actions);
    var last := states[|actions|];
    assert |BatchesOf(last.log)| == |BatchesOf(v.log)|;
  }
}
