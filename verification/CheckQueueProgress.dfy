/**
  Wait returns: whatever the threads do, the work ahead of them shrinks, and as
  long as the master is in `Loop` there is a next step that does not depend on a
  wake-up without cause (src/checkqueue.h).
 */
module CheckQueueProgress {
  import opened CheckQueue

  /** The steps a thread may still have ahead: one for each check, one to return,
      one to notify another; one to wake. */
  function Weight(t: Thread): nat {
    match t
    case Outside => 0
    case Waiting(notified) => if notified then 1 else 0
    case Holding(todo, _, _) => |todo| + 2
  }

  function WeightOf(ts: seq<Thread>, n: nat): nat
    requires n <= |ts|
  {
    if n == 0 then 0 else WeightOf(ts, n - 1) + Weight(ts[n - 1])
  }

  /** No more steps than this are ahead without new checks. */
  function Work(s: State): nat {
    4 * |s.queue| + WeightOf(s.threads, |s.threads|)
  }

  lemma {:induction false} WeightSame(ts: seq<Thread>, us: seq<Thread>, n: nat)
    requires n <= |ts| && n <= |us| && forall i | 0 <= i < n :: ts[i] == us[i]
    ensures WeightOf(ts, n) == WeightOf(us, n)
  {
    if n > 0 {
      WeightSame(ts, us, n - 1);
    }
  }

  lemma {:induction false} WeightUpdate(ts: seq<Thread>, n: nat, i: nat, x: Thread)
    requires i < n <= |ts|
    ensures WeightOf(ts[i := x], n) + Weight(ts[i]) == WeightOf(ts, n) + Weight(x)
  {
    if i == n - 1 {
      WeightSame(ts, ts[i := x], n - 1);
    } else {
      WeightUpdate(ts, n - 1, i, x);
    }
  }

  lemma {:induction false} SectionWork(s: State, t: nat)
    requires t < |s.threads|
    ensures Work(Section(s, t)) + Weight(s.threads[t]) <= Work(s)
  {
    WeightUpdate(s.threads, |s.threads|, t, Section(s, t).threads[t]);
  }

  lemma {:induction false} CleanUpWork(s: State, t: nat)
    requires Enabled(s, Return(t))
    ensures Work(CleanUp(s, t)) < Work(s)
  {
    var ts := s.threads[t := Outside];
    WeightUpdate(s.threads, |s.threads|, t, Outside);
    WeightUpdate(ts, |ts|, MASTER, Waiting(true));
  }

  lemma {:induction false} ReturnWork(s: State, t: nat)
    requires Enabled(s, Return(t))
    ensures Work(Step(s, Return(t))) < Work(s)
  {
    CleanUpWork(s, t);
    SectionWork(CleanUp(s, t), t);
  }

  lemma {:induction false} WakeWork(s: State, t: nat)
    requires Enabled(s, Wake(t))
    ensures Work(Step(s, Wake(t))) + Weight(s.threads[t]) <= Work(s)
  {
    WeightUpdate(s.threads, |s.threads|, t, Outside);
    SectionWork(s.(nIdle := s.nIdle - 1, threads := s.threads[t := Outside]), t);
  }

  /** A step that a thread is bound to take: it was notified, or it holds a batch. */
  predicate Productive(s: State, e: Event) {
    Enabled(s, e) && (e.Call? || e.Return? || (e.Wake? && s.threads[e.t] == Waiting(true)))
  }

  /** Every step but the adding of checks leaves at most the work there was, and
      a productive one less. */
  lemma {:induction false} WorkShrinks(s: State, e: Event)
    requires Enabled(s, e) && !e.Add?
    ensures Work(Step(s, e)) <= Work(s)
    ensures Productive(s, e) ==> Work(Step(s, e)) < Work(s)
  {
    match e
    case Enter(t) => SectionWork(s.(nTotal := s.nTotal + 1), t);
    case Wake(t) => WakeWork(s, t);
    case Call(t) => WeightUpdate(s.threads, |s.threads|, t, RunNext(s, t).threads[t]);
    case Return(t) => ReturnWork(s, t);
    case Spawn => WeightSame(s.threads, s.threads + [Outside], |s.threads|);
  }

  /** The number of productive steps of a run. */
  function Progress(s: State, es: seq<Event>): nat
    requires Possible(s, es)
    decreases |es|
  {
    if es == [] then 0 else (if Productive(s, es[0]) then 1 else 0) + Progress(Step(s, es[0]), es[1..])
  }

  /** No scheduler can keep the threads busy for ever: without new checks, whatever
      else happens in whatever order, at most `Work(s)` steps are productive. */
  lemma {:induction false} BusyAtMost(s: State, es: seq<Event>)
    requires Possible(s, es) && forall i | 0 <= i < |es| :: !es[i].Add?
    ensures Progress(s, es) + Work(Run(s, es)) <= Work(s)
    decreases |es|
  {
    if es != [] {
      WorkShrinks(s, es[0]);
      BusyAtMost(Step(s, es[0]), es[1..]);
    }
  }

  /** There is no deadlock: while the master is in `Loop`, some step is productive. */
  lemma {:induction false} NextStep(s: State) returns (e: Event)
    requires Inv(s) && !s.threads[MASTER].Outside?
    ensures Productive(s, e)
  {
    if s.threads[MASTER] == Waiting(true) {
      e := Wake(MASTER);
    } else {
      var t := MASTER;
      if s.threads[MASTER].Waiting? {
        var c := Check(0, true);
        assert Conserves(s, c);
        t := SomeHolder(s.threads, |s.threads|, c);
      }
      e := if s.threads[t].todo != [] then Call(t) else Return(t);
    }
  }

  /** The master is still in `Loop`, on the same round, or has returned. */
  ghost predicate StillOrReturned(s: State, r: State) {
    |r.threads| > 0 &&
    if r.threads[MASTER].Outside? then
      |r.results| == |s.results| + 1 && r.results[..|s.results|] == s.results && r.results[|s.results|].1 == s.round
    else r.results == s.results && r.round == s.round
  }

  lemma {:induction false} OtherSection(s: State, t: nat)
    requires t != MASTER && t < |s.threads|
    ensures var r := Section(s, t);
            |r.threads| == |s.threads| && r.threads[MASTER] == s.threads[MASTER] &&
            r.results == s.results && r.round == s.round
  {
  }

  lemma {:induction false} MasterSection(s: State)
    requires |s.threads| > 0
    ensures StillOrReturned(s, Section(s, MASTER))
  {
  }

  lemma {:induction false} StepOrReturn(s: State, e: Event)
    requires |s.threads| > 0 && !s.threads[MASTER].Outside? && Productive(s, e)
    ensures StillOrReturned(s, Step(s, e))
  {
    match e
    case Wake(t) =>
      var r := s.(nIdle := s.nIdle - 1, threads := s.threads[t := Outside]);
      SectionOrReturn(s, r, t);
    case Call(t) =>
    case Return(t) => SectionOrReturn(s, CleanUp(s, t), t);
  }

  lemma {:induction false} SectionOrReturn(s: State, r: State, t: nat)
    requires t < |r.threads| && r.results == s.results && r.round == s.round
    requires t != MASTER ==> !r.threads[MASTER].Outside?
    ensures StillOrReturned(s, Section(r, t))
  {
    if t == MASTER {
      MasterSection(r);
    } else {
      OtherSection(r, t);
    }
  }

  /** From every reachable state in which the master has called Wait, productive
      steps alone lead to its return, with the verdict on all checks of the round. */
  lemma {:induction false} WaitReturns(s: State) returns (es: seq<Event>)
    requires Inv(s) && !s.threads[MASTER].Outside?
    ensures |es| <= Work(s) && Possible(s, es) && Progress(s, es) == |es|
    ensures var r := Run(s, es);
            && |r.threads| > 0 && r.threads[MASTER].Outside?
            && |r.results| == |s.results| + 1 && r.results[..|s.results|] == s.results
            && r.results[|s.results|].1 == s.round
            && (r.results[|s.results|].0 <==> AllTrue(s.round))
    decreases Work(s)
  {
    var e := NextStep(s);
    var n := Step(s, e);
    StepOrReturn(s, e);
    WorkShrinks(s, e);
    StepKeepsInv(s, e);
    var rest := [];
    if !n.threads[MASTER].Outside? {
      rest := WaitReturns(n);
    }
    es := [e] + rest;
    assert es[0] == e && es[1..] == rest;
    RunKeepsInv(n, rest);
    assert Run(s, es) == Run(n, rest);
  }

  function Spawns(n: nat): seq<Event> {
    seq(n, _ => Spawn)
  }

  lemma {:induction false} SpawnMany(s: State, n: nat)
    ensures Possible(s, Spawns(n))
    ensures Run(s, Spawns(n)).batchSize == s.batchSize && |Run(s, Spawns(n)).threads| == |s.threads| + n
    decreases n
  {
    if n > 0 {
      assert Spawns(n)[1..] == Spawns(n - 1);
      SpawnMany(Step(s, Spawn), n - 1);
    }
  }

  /** Any number of workers may take part. */
  lemma {:induction false} AnyWorkers(quit: bool, batchSize: nat, n: nat)
    ensures exists s :: Reachable(s) && |s.threads| == n + 1 && s.batchSize == batchSize
  {
    var init := Init(quit, batchSize);
    SpawnMany(init, n);
    assert Reachable(Run(init, Spawns(n)));
  }
}
