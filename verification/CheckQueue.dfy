/**
  The parallel check queue of src/checkqueue.h: one master and any number of
  workers share a queue under a mutex.  A step of the model is one critical
  section, or the run of one check outside it, so a run is any interleaving.
  Condition variables are explicit: a waiting thread knows whether it was
  notified, and may also wake without cause.
 */
module CheckQueue {

  /** A verification and what calling it returns. */
  datatype Check = Check(id: nat, ok: bool)

  /** Where a thread is in `Loop`.  A holder has run (or skipped) `done` and has
      `todo` ahead of it. */
  datatype Thread =
    | Outside
    | Waiting(notified: bool)
    | Holding(todo: seq<Check>, done: seq<Check>, ok: bool)

  const MASTER := 0

  /** The members of CCheckQueue and its threads, the master first, followed by
      a record of the past: `round` is all that was added since the last return
      of Wait, `retired` the part of it already accounted for, `past` all that
      earlier rounds added, `ran` every call of a check, `called` the calls since
      the last return of Wait, `results` what each Wait returned, for which
      checks, and which calls had been made for it. */
  datatype State = State(
    queue: seq<Check>, nIdle: int, nTotal: int, allOk: bool, nTodo: int, quit: bool, batchSize: nat,
    threads: seq<Thread>,
    round: multiset<Check>, retired: multiset<Check>, past: multiset<Check>, ran: multiset<Check>,
    called: multiset<Check>, results: seq<(bool, multiset<Check>, multiset<Check>)>)

  datatype Event =
    | Enter(t: nat)                              // Thread() or Wait() is called
    | Wake(t: nat)                               // cond.wait returns
    | Call(t: nat)                               // the next check of the batch
    | Return(t: nat)                             // back to the top of the loop
    | Add(checks: seq<Check>, woken: set<nat>)   // the master adds a batch
    | Spawn                                      // one more worker thread exists

  function Init(quit: bool, batchSize: nat): State {
    State([], 0, 0, true, 0, quit, batchSize, [Outside],
          multiset{}, multiset{}, multiset{}, multiset{}, multiset{}, [])
  }

  function Reverse(s: seq<Check>): (r: seq<Check>)
    ensures |r| == |s| && forall i | 0 <= i < |s| :: r[i] == s[|s| - 1 - i]
  {
    seq(|s|, i requires 0 <= i < |s| => s[|s| - 1 - i])
  }

  lemma {:induction false} ReverseKeeps(s: seq<Check>)
    ensures multiset(Reverse(s)) == multiset(s)
  {
    if |s| > 0 {
      var front, last := s[..|s| - 1], s[|s| - 1];
      ReverseKeeps(front);
      assert Reverse(s) == [last] + Reverse(front);
      assert s == front + [last];
    }
  }

  /** The divisor is positive in every reachable state; the model only has to
      be total. */
  function BatchLength(s: State): (n: int)
    requires s.queue != []
    ensures 1 <= n <= |s.queue|
    ensures n <= s.batchSize || n == 1
  {
    var d := s.nTotal + s.nIdle + 1;
    var share := if d >= 1 then |s.queue| / d else 0;
    ShareBound(|s.queue|, if d >= 1 then d else 1);
    var n := if s.batchSize < share then s.batchSize else share;
    if n < 1 then 1 else n
  }

  lemma {:induction false} ShareBound(n: nat, d: int)
    requires d >= 1
    ensures n / d <= n
  {
    var q := n / d;
    assert n == d * q + n % d;
    assert d * q == (d - 1) * q + q;
  }

  /** A batch is the share of one thread, if all threads and all idle ones once more
      were to share the queue: never more than that or the batch size, unless it is
      a single check, and never less. */
  lemma {:induction false} FairShare(s: State)
    requires s.queue != [] && s.nTotal + s.nIdle >= 0
    ensures var n, d := BatchLength(s), s.nTotal + s.nIdle + 1;
            && (n > 1 ==> n <= s.batchSize && n * d <= |s.queue|)
            && (n < s.batchSize ==> (n + 1) * d > |s.queue|)
  {
    var n, d, q := BatchLength(s), s.nTotal + s.nIdle + 1, |s.queue|;
    Shares(q, d, n);
    assert n > 1 ==> n <= q / d;
    assert n < s.batchSize ==> n >= q / d;
  }

  lemma {:induction false} Shares(q: nat, d: int, n: int)
    requires d >= 1
    ensures n <= q / d ==> n * d <= q
    ensures n >= q / d ==> (n + 1) * d > q
  {
    var share := q / d;
    assert q == share * d + q % d;
    assert (share + 1) * d > q;
    if n <= share {
      Scale(n, share, d);
    }
    if n >= share {
      Scale(share + 1, n + 1, d);
    }
  }

  lemma {:induction false} Scale(a: int, b: int, d: int)
    requires a <= b && d >= 0
    ensures a * d <= b * d
  {
  }

  /** The critical section from the loop over the empty queue on: return, wait,
      or take a batch off the back of the queue. */
  function Section(s: State, t: nat): State
    requires t < |s.threads|
  {
    if s.queue == [] then
      if (t == MASTER || s.quit) && s.nTodo == 0 then
        var out := s.(nTotal := s.nTotal - 1, threads := s.threads[t := Outside]);
        if t == MASTER then
          out.(allOk := true, results := s.results + [(s.allOk, s.round, s.called)],
               past := s.past + s.round, round := multiset{}, retired := multiset{}, called := multiset{})
        else out
      else s.(nIdle := s.nIdle + 1, threads := s.threads[t := Waiting(false)])
    else
      var keep := |s.queue| - BatchLength(s);
      s.(queue := s.queue[..keep],
         threads := s.threads[t := Holding(Reverse(s.queue[keep..]), [], s.allOk)])
  }

  /** The clean-up after a batch: add up and, on the last check, notify the
      master. */
  function CleanUp(s: State, t: nat): State
    requires t < |s.threads| && s.threads[t].Holding?
  {
    var h := s.threads[t];
    var n := s.nTodo - |h.done|;
    var threads := s.threads[t := Outside];
    s.(allOk := s.allOk && h.ok, nTodo := n, retired := s.retired + multiset(h.done),
       threads := if n == 0 && t != MASTER && threads[MASTER].Waiting?
                  then threads[MASTER := Waiting(true)] else threads)
  }

  function RunNext(s: State, t: nat): State
    requires t < |s.threads| && s.threads[t].Holding? && s.threads[t].todo != []
  {
    var h := s.threads[t];
    var c := h.todo[0];
    s.(ran := if h.ok then s.ran + multiset{c} else s.ran,
       called := if h.ok then s.called + multiset{c} else s.called,
       threads := s.threads[t := Holding(h.todo[1..], h.done + [c], h.ok && c.ok)])
  }

  function WaitingWorkers(s: State): set<nat> {
    set t: nat | t < |s.threads| && t != MASTER && s.threads[t] == Waiting(false)
  }

  /** notify_one for one check, notify_all for more. */
  predicate Notifies(s: State, n: nat, woken: set<nat>) {
    && woken <= WaitingWorkers(s)
    && (n == 0 ==> woken == {})
    && (n == 1 && WaitingWorkers(s) != {} ==> |woken| == 1)
    && (n > 1 ==> woken == WaitingWorkers(s))
  }

  function Push(s: State, checks: seq<Check>, woken: set<nat>): State {
    s.(queue := s.queue + checks, nTodo := s.nTodo + |checks|,
       round := s.round + multiset(checks),
       threads := seq(|s.threads|, i requires 0 <= i < |s.threads| =>
                    if i in woken && s.threads[i].Waiting? then Waiting(true) else s.threads[i]))
  }

  predicate Enabled(s: State, e: Event) {
    match e
    case Enter(t) => t < |s.threads| && s.threads[t].Outside?
    case Wake(t) => t < |s.threads| && s.threads[t].Waiting?
    case Call(t) => t < |s.threads| && s.threads[t].Holding? && s.threads[t].todo != []
    case Return(t) => t < |s.threads| && s.threads[t].Holding? && s.threads[t].todo == []
    case Add(checks, woken) =>
      |s.threads| > 0 && s.threads[MASTER].Outside? && Notifies(s, |checks|, woken)
    case Spawn => true
  }

  function Step(s: State, e: Event): State
    requires Enabled(s, e)
  {
    match e
    case Enter(t) => Section(s.(nTotal := s.nTotal + 1), t)
    case Wake(t) => Section(s.(nIdle := s.nIdle - 1, threads := s.threads[t := Outside]), t)
    case Call(t) => RunNext(s, t)
    case Return(t) => Section(CleanUp(s, t), t)
    case Add(checks, woken) => Push(s, checks, woken)
    case Spawn => s.(threads := s.threads + [Outside])
  }

  /** Adding several checks notifies every worker that waits; adding one notifies one
      of those that wait without a notification, if there are any, and no other. */
  lemma {:induction false} AddNotifies(s: State, checks: seq<Check>, woken: set<nat>)
    requires Enabled(s, Add(checks, woken))
    ensures var r := Step(s, Add(checks, woken));
            && |r.threads| == |s.threads|
            && (|checks| > 1 ==>
                  forall t | 0 < t < |s.threads| && s.threads[t].Waiting? :: r.threads[t] == Waiting(true))
            && (|checks| == 1 && (exists t | 0 < t < |s.threads| :: s.threads[t] == Waiting(false)) ==>
                  exists t | 0 < t < |s.threads| ::
                    s.threads[t] == Waiting(false) && r.threads == s.threads[t := Waiting(true)])
            && (checks == [] ==> r.threads == s.threads)
  {
    var r, waiting := Step(s, Add(checks, woken)), WaitingWorkers(s);
    if |checks| == 1 && exists t | 0 < t < |s.threads| :: s.threads[t] == Waiting(false) {
      var u :| 0 < u < |s.threads| && s.threads[u] == Waiting(false);
      assert u in waiting;
      var t :| t in woken;
      assert |woken - {t}| == 0;
      assert woken == {t} && t in waiting;
      assert r.threads == s.threads[t := Waiting(true)];
    }
  }

  /** The master can always add checks, when it is not in Wait. */
  lemma {:induction false} AddPossible(s: State, checks: seq<Check>) returns (woken: set<nat>)
    requires |s.threads| > 0 && s.threads[MASTER].Outside?
    ensures Enabled(s, Add(checks, woken))
  {
    var waiting := WaitingWorkers(s);
    if |checks| == 0 || waiting == {} {
      woken := {};
    } else if |checks| == 1 {
      var t :| t in waiting;
      woken := {t};
    } else {
      woken := waiting;
    }
  }

  // ----- what all threads hold together

  /** What threads contribute to the counters, and how often check `c` is among
      what they still have to run or have run. */
  datatype Tally = Tally(held: int, waiting: int, inside: int, todo: int, done: int)

  function Of(t: Thread, c: Check): Tally {
    match t
    case Outside => Tally(0, 0, 0, 0, 0)
    case Waiting(_) => Tally(0, 1, 1, 0, 0)
    case Holding(todo, done, _) => Tally(|todo| + |done|, 0, 1, multiset(todo)[c], multiset(done)[c])
  }

  function Plus(a: Tally, b: Tally): Tally {
    Tally(a.held + b.held, a.waiting + b.waiting, a.inside + b.inside, a.todo + b.todo, a.done + b.done)
  }

  function Total(ts: seq<Thread>, c: Check): Tally {
    TotalOf(ts, |ts|, c)
  }

  /** The first `n` threads together. */
  function TotalOf(ts: seq<Thread>, n: nat, c: Check): Tally
    requires n <= |ts|
  {
    if n == 0 then Tally(0, 0, 0, 0, 0) else Plus(TotalOf(ts, n - 1, c), Of(ts[n - 1], c))
  }

  lemma {:induction false} TotalSame(ts: seq<Thread>, us: seq<Thread>, n: nat, c: Check)
    requires n <= |ts| && n <= |us| && forall i | 0 <= i < n :: Of(ts[i], c) == Of(us[i], c)
    ensures TotalOf(ts, n, c) == TotalOf(us, n, c)
  {
    if n > 0 {
      TotalSame(ts, us, n - 1, c);
    }
  }

  lemma {:induction false} TotalOfUpdate(ts: seq<Thread>, n: nat, i: nat, x: Thread, c: Check)
    requires i < n <= |ts|
    ensures Plus(TotalOf(ts[i := x], n, c), Of(ts[i], c)) == Plus(TotalOf(ts, n, c), Of(x, c))
  {
    if i == n - 1 {
      TotalSame(ts, ts[i := x], n - 1, c);
    } else {
      TotalOfUpdate(ts, n - 1, i, x, c);
    }
  }

  lemma {:induction false} TotalUpdate(ts: seq<Thread>, i: nat, x: Thread, c: Check)
    requires i < |ts|
    ensures Plus(Total(ts[i := x], c), Of(ts[i], c)) == Plus(Total(ts, c), Of(x, c))
  {
    TotalOfUpdate(ts, |ts|, i, x, c);
  }

  lemma {:induction false} TotalBound(ts: seq<Thread>, n: nat, c: Check)
    requires n <= |ts|
    ensures var a := TotalOf(ts, n, c);
            a.held >= 0 && 0 <= a.waiting <= a.inside && a.todo >= 0 && a.done >= 0 && a.todo + a.done <= a.held
  {
    if n > 0 {
      TotalBound(ts, n - 1, c);
      CountBound(ts[n - 1], c);
    }
  }

  lemma {:induction false} CountBound(t: Thread, c: Check)
    ensures Of(t, c).todo + Of(t, c).done <= Of(t, c).held
  {
    if t.Holding? {
      assert |multiset(t.todo)| == |t.todo| && |multiset(t.done)| == |t.done|;
    }
  }

  lemma {:induction false} TotalCovers(ts: seq<Thread>, n: nat, i: nat, c: Check)
    requires i < n <= |ts|
    ensures var a := TotalOf(ts, n, c);
            Of(ts[i], c).held <= a.held && Of(ts[i], c).todo <= a.todo && Of(ts[i], c).done <= a.done
  {
    TotalBound(ts, n - 1, c);
    if i < n - 1 {
      TotalCovers(ts, n - 1, i, c);
    }
  }

  /** If checks are held, some thread holds them. */
  lemma {:induction false} SomeHolder(ts: seq<Thread>, n: nat, c: Check) returns (t: nat)
    requires n <= |ts| && TotalOf(ts, n, c).held > 0
    ensures t < n && ts[t].Holding? && |ts[t].todo| + |ts[t].done| > 0
  {
    if Of(ts[n - 1], c).held > 0 {
      t := n - 1;
    } else {
      t := SomeHolder(ts, n - 1, c);
    }
  }

  // ----- the invariant

  ghost predicate AllTrue(m: multiset<Check>) {
    forall c | c in m :: c.ok
  }

  /** The counters count, and check `c` is not lost, invented or run twice. */
  ghost predicate Conserves(s: State, c: Check) {
    var a := Total(s.threads, c);
    && s.nIdle == a.waiting
    && s.nTotal == a.inside
    && s.nTodo == |s.queue| + a.held
    && s.round[c] == multiset(s.queue)[c] + a.todo + a.done + s.retired[c]
    && s.ran[c] <= s.past[c] + s.retired[c] + a.done
    && (AllTrue(s.round) ==> s.called[c] == s.retired[c] + a.done)
  }

  ghost predicate Conserved(s: State) {
    forall c: Check :: Conserves(s, c)
  }

  ghost predicate HolderTruthful(s: State, t: Thread) {
    t.Holding? ==>
      && |t.todo| + |t.done| > 0
      && (if t.ok then AllTrue(multiset(t.done)) else !AllTrue(s.round))
  }

  ghost predicate HoldersTruthful(s: State) {
    forall i | 0 <= i < |s.threads| :: HolderTruthful(s, s.threads[i])
  }

  ghost predicate ResultsTruthful(s: State) {
    forall i | 0 <= i < |s.results| ::
      (s.results[i].0 <==> AllTrue(s.results[i].1)) && (s.results[i].0 ==> s.results[i].2 == s.results[i].1)
  }

  /** The running results reflect the checks accounted for. */
  ghost predicate Truthful(s: State) {
    && (if s.allOk then AllTrue(s.retired) else !AllTrue(s.round))
    && HoldersTruthful(s)
    && ResultsTruthful(s)
  }

  ghost predicate MasterSafe(s: State) {
    && |s.threads| > 0
    && (s.threads[MASTER].Waiting? ==> s.queue == [])
    && (s.threads[MASTER] == Waiting(false) ==> s.nTodo > 0)
  }

  ghost predicate Inv(s: State) {
    Conserved(s) && Truthful(s) && MasterSafe(s)
  }

  /** Inside a critical section: thread `t` holds nothing and is already
      counted in `nTotal`. */
  ghost predicate SectionInv(s: State, t: nat) {
    && t < |s.threads|
    && s.threads[t].Outside?
    && Conserved(s.(nTotal := s.nTotal - 1))
    && Truthful(s)
    && MasterSafe(s)
  }

  lemma {:induction false} NobodyHolds(s: State)
    requires Conserved(s.(nTotal := s.nTotal - 1)) && HoldersTruthful(s) && s.queue == [] && s.nTodo == 0
    ensures s.round == s.retired && (AllTrue(s.round) ==> s.called == s.round)
    ensures forall i | 0 <= i < |s.threads| :: !s.threads[i].Holding?
  {
    var r := s.(nTotal := s.nTotal - 1);
    forall c: Check
      ensures s.round[c] == s.retired[c] && (AllTrue(s.round) ==> s.called[c] == s.round[c])
    {
      assert Conserves(r, c);
      TotalBound(s.threads, |s.threads|, c);
    }
    forall i | 0 <= i < |s.threads|
      ensures !s.threads[i].Holding?
    {
      var c := Check(0, true);
      assert Conserves(r, c);
      TotalCovers(s.threads, |s.threads|, i, c);
      assert HolderTruthful(s, s.threads[i]);
    }
  }

  lemma {:induction false} SectionReturns(s: State, t: nat)
    requires SectionInv(s, t) && s.queue == [] && s.nTodo == 0
    requires t == MASTER || s.quit
    ensures Inv(Section(s, t))
  {
    NobodyHolds(s);
    var r := Section(s, t);
    assert r.threads == s.threads;
    forall c: Check
      ensures Conserves(r, c)
    {
      assert Conserves(s.(nTotal := s.nTotal - 1), c);
      TotalBound(s.threads, |s.threads|, c);
    }
  }

  lemma {:induction false} SectionWaits(s: State, t: nat)
    requires SectionInv(s, t) && s.queue == [] && !((t == MASTER || s.quit) && s.nTodo == 0)
    ensures Inv(Section(s, t))
  {
    var r := Section(s, t);
    forall c: Check
      ensures Conserves(r, c) && r.nTodo >= 0
    {
      assert Conserves(s.(nTotal := s.nTotal - 1), c);
      TotalBound(s.threads, |s.threads|, c);
      TotalUpdate(s.threads, t, Waiting(false), c);
    }
    assert Conserves(r, Check(0, true));
    forall i | 0 <= i < |r.threads|
      ensures HolderTruthful(r, r.threads[i])
    {
      assert HolderTruthful(s, s.threads[i]);
    }
  }

  lemma {:induction false} SectionTakes(s: State, t: nat)
    requires SectionInv(s, t) && s.queue != []
    ensures Inv(Section(s, t))
  {
    var r := Section(s, t);
    var keep := |s.queue| - BatchLength(s);
    assert s.queue == s.queue[..keep] + s.queue[keep..];
    ReverseKeeps(s.queue[keep..]);
    forall c: Check
      ensures Conserves(r, c)
    {
      assert Conserves(s.(nTotal := s.nTotal - 1), c);
      TotalUpdate(s.threads, t, r.threads[t], c);
    }
    forall i | 0 <= i < |r.threads|
      ensures HolderTruthful(r, r.threads[i])
    {
      assert HolderTruthful(s, s.threads[i]);
    }
  }

  lemma {:induction false} SectionKeepsInv(s: State, t: nat)
    requires SectionInv(s, t)
    ensures Inv(Section(s, t))
  {
    if s.queue != [] {
      SectionTakes(s, t);
    } else if (t == MASTER || s.quit) && s.nTodo == 0 {
      SectionReturns(s, t);
    } else {
      SectionWaits(s, t);
    }
  }

  lemma {:induction false} EnterKeepsInv(s: State, t: nat)
    requires Inv(s) && Enabled(s, Enter(t))
    ensures Inv(Step(s, Enter(t)))
  {
    var r := s.(nTotal := s.nTotal + 1);
    assert r.(nTotal := r.nTotal - 1) == s;
    assert forall i | 0 <= i < |s.threads| :: HolderTruthful(s, s.threads[i]) ==> HolderTruthful(r, r.threads[i]);
    SectionKeepsInv(r, t);
  }

  lemma {:induction false} WakeKeepsInv(s: State, t: nat)
    requires Inv(s) && Enabled(s, Wake(t))
    ensures Inv(Step(s, Wake(t)))
  {
    var r := s.(nIdle := s.nIdle - 1, threads := s.threads[t := Outside]);
    var q := r.(nTotal := r.nTotal - 1);
    forall c: Check
      ensures Conserves(q, c)
    {
      assert Conserves(s, c);
      TotalUpdate(s.threads, t, Outside, c);
    }
    forall i | 0 <= i < |r.threads|
      ensures HolderTruthful(r, r.threads[i])
    {
      assert HolderTruthful(s, s.threads[i]);
    }
    SectionKeepsInv(r, t);
  }

  lemma {:induction false} CleanUpConserves(s: State, t: nat, c: Check)
    requires Enabled(s, Return(t)) && |s.threads| > 0 && Conserves(s, c)
    ensures var r := CleanUp(s, t); Conserves(r.(nTotal := r.nTotal - 1), c)
  {
    var r := CleanUp(s, t);
    TotalUpdate(s.threads, t, Outside, c);
    TotalSame(s.threads[t := Outside], r.threads, |r.threads|, c);
  }

  lemma {:induction false} CleanUpTruthful(s: State, t: nat)
    requires Inv(s) && Enabled(s, Return(t))
    ensures Truthful(CleanUp(s, t))
  {
    var r := CleanUp(s, t);
    assert HolderTruthful(s, s.threads[t]);
    forall i | 0 <= i < |r.threads|
      ensures HolderTruthful(r, r.threads[i])
    {
      assert HolderTruthful(s, s.threads[i]);
    }
  }

  lemma {:induction false} ReturnKeepsInv(s: State, t: nat)
    requires Inv(s) && Enabled(s, Return(t))
    ensures Inv(Step(s, Return(t)))
  {
    var r := CleanUp(s, t);
    var q := r.(nTotal := r.nTotal - 1);
    forall c: Check
      ensures Conserves(q, c)
    {
      assert Conserves(s, c);
      CleanUpConserves(s, t, c);
    }
    CleanUpTruthful(s, t);
    var c := Check(0, true);
    assert Conserves(r.(nTotal := r.nTotal - 1), c);
    TotalBound(r.threads, |r.threads|, c);
    SectionKeepsInv(r, t);
  }

  lemma {:induction false} CallConserves(s: State, t: nat, c: Check)
    requires Enabled(s, Call(t)) && Conserves(s, c) && HolderTruthful(s, s.threads[t])
    ensures Conserves(RunNext(s, t), c)
  {
    var r, h := RunNext(s, t), s.threads[t];
    assert h.todo == [h.todo[0]] + h.todo[1..];
    TotalUpdate(s.threads, t, r.threads[t], c);
  }

  lemma {:induction false} CallKeepsInv(s: State, t: nat)
    requires Inv(s) && Enabled(s, Call(t))
    ensures Inv(Step(s, Call(t)))
  {
    var r, h := RunNext(s, t), s.threads[t];
    var c := h.todo[0];
    assert HolderTruthful(s, h);
    forall d: Check
      ensures Conserves(r, d)
    {
      assert Conserves(s, d);
      CallConserves(s, t, d);
    }
    assert c in s.round by {
      assert Conserves(s, c);
      TotalBound(s.threads, |s.threads|, c);
      TotalCovers(s.threads, |s.threads|, t, c);
      assert c in multiset(h.todo);
    }
    forall i | 0 <= i < |r.threads|
      ensures HolderTruthful(r, r.threads[i])
    {
      assert HolderTruthful(s, s.threads[i]);
    }
  }

  lemma {:induction false} AddKeepsInv(s: State, checks: seq<Check>, woken: set<nat>)
    requires Inv(s) && Enabled(s, Add(checks, woken))
    ensures Inv(Step(s, Add(checks, woken)))
  {
    var r := Push(s, checks, woken);
    forall c: Check
      ensures Conserves(r, c)
    {
      assert Conserves(s, c);
      TotalSame(s.threads, r.threads, |r.threads|, c);
    }
    assert s.round <= r.round;
    forall i | 0 <= i < |r.threads|
      ensures HolderTruthful(r, r.threads[i])
    {
      assert HolderTruthful(s, s.threads[i]);
    }
  }

  lemma {:induction false} SpawnKeepsInv(s: State)
    requires Inv(s)
    ensures Inv(Step(s, Spawn))
  {
    var r := Step(s, Spawn);
    forall c: Check
      ensures Conserves(r, c)
    {
      assert Conserves(s, c);
      TotalSame(s.threads, r.threads, |s.threads|, c);
    }
    forall i | 0 <= i < |r.threads|
      ensures HolderTruthful(r, r.threads[i])
    {
      assert i < |s.threads| ==> HolderTruthful(s, s.threads[i]);
    }
  }

  lemma {:induction false} StepKeepsInv(s: State, e: Event)
    requires Inv(s) && Enabled(s, e)
    ensures Inv(Step(s, e))
  {
    match e
    case Enter(t) => EnterKeepsInv(s, t);
    case Wake(t) => WakeKeepsInv(s, t);
    case Call(t) => CallKeepsInv(s, t);
    case Return(t) => ReturnKeepsInv(s, t);
    case Add(checks, woken) => AddKeepsInv(s, checks, woken);
    case Spawn => SpawnKeepsInv(s);
  }

  // ----- whole runs

  predicate Possible(s: State, es: seq<Event>)
    decreases |es|
  {
    es != [] ==> Enabled(s, es[0]) && Possible(Step(s, es[0]), es[1..])
  }

  function Run(s: State, es: seq<Event>): State
    requires Possible(s, es)
    decreases |es|
  {
    if es == [] then s else Run(Step(s, es[0]), es[1..])
  }

  lemma {:induction false} RunKeepsInv(s: State, es: seq<Event>)
    requires Inv(s) && Possible(s, es)
    ensures Inv(Run(s, es))
    decreases |es|
  {
    if es != [] {
      StepKeepsInv(s, es[0]);
      RunKeepsInv(Step(s, es[0]), es[1..]);
    }
  }

  lemma {:induction false} TotalOutside(ts: seq<Thread>, c: Check)
    requires |ts| == 1 && ts[0].Outside?
    ensures Total(ts, c) == Tally(0, 0, 0, 0, 0)
  {
    assert TotalOf(ts, 0, c) == Tally(0, 0, 0, 0, 0);
  }

  lemma {:induction false} InitConserves(quit: bool, batchSize: nat, c: Check)
    ensures Conserves(Init(quit, batchSize), c)
  {
    TotalOutside(Init(quit, batchSize).threads, c);
  }

  lemma {:induction false} InitInv(quit: bool, batchSize: nat)
    ensures Inv(Init(quit, batchSize))
  {
    var s := Init(quit, batchSize);
    forall c: Check
      ensures Conserves(s, c)
    {
      InitConserves(quit, batchSize, c);
    }
    assert HoldersTruthful(s);
  }

  /** Some interleaving of some threads leads to `s`. */
  ghost predicate Reachable(s: State) {
    exists quit: bool, batchSize: nat, es: seq<Event> ::
      Possible(Init(quit, batchSize), es) && s == Run(Init(quit, batchSize), es)
  }

  lemma {:induction false} ReachableInv(s: State)
    requires Reachable(s)
    ensures Inv(s)
  {
    var quit: bool, batchSize: nat, es: seq<Event> :|
      Possible(Init(quit, batchSize), es) && s == Run(Init(quit, batchSize), es);
    InitInv(quit, batchSize);
    RunKeepsInv(Init(quit, batchSize), es);
  }

  /** `nTodo` is what is queued plus what threads hold, and never wraps. */
  lemma {:induction false} TodoExact(s: State)
    requires Reachable(s)
    ensures s.nTodo == |s.queue| + HeldChecks(s.threads, |s.threads|) && 0 <= s.nIdle <= s.nTotal
  {
    ReachableInv(s);
    var c := Check(0, true);
    HeldIsTotal(s.threads, |s.threads|, c);
    TotalBound(s.threads, |s.threads|, c);
    assert Conserves(s, c);
  }

  function HeldChecks(ts: seq<Thread>, n: nat): nat
    requires n <= |ts|
  {
    if n == 0 then 0
    else
      var t := ts[n - 1];
      HeldChecks(ts, n - 1) + if t.Holding? then |t.todo| + |t.done| else 0
  }

  lemma {:induction false} HeldIsTotal(ts: seq<Thread>, n: nat, c: Check)
    requires n <= |ts|
    ensures TotalOf(ts, n, c).held == HeldChecks(ts, n)
  {
    if n > 0 {
      HeldIsTotal(ts, n - 1, c);
    }
  }

  /** How often check `c` is still ahead in the batches of the first `n` threads. */
  function Ahead(ts: seq<Thread>, n: nat, c: Check): nat
    requires n <= |ts|
  {
    if n == 0 then 0
    else
      var t := ts[n - 1];
      Ahead(ts, n - 1, c) + if t.Holding? then multiset(t.todo)[c] else 0
  }

  lemma {:induction false} AheadIsTotal(ts: seq<Thread>, n: nat, c: Check)
    requires n <= |ts|
    ensures TotalOf(ts, n, c).todo == Ahead(ts, n, c)
  {
    if n > 0 {
      AheadIsTotal(ts, n - 1, c);
    }
  }

  /** A check is called at most as often as it was added, not counting the times
      it still is in the queue or ahead in a batch. */
  lemma {:induction false} NoCheckRunsTwice(s: State, c: Check)
    requires Reachable(s)
    ensures s.ran[c] + multiset(s.queue)[c] + Ahead(s.threads, |s.threads|, c) <= s.past[c] + s.round[c]
  {
    ReachableInv(s);
    assert Conserves(s, c);
    AheadIsTotal(s.threads, |s.threads|, c);
    TotalBound(s.threads, |s.threads|, c);
  }

  /** Every Wait so far returned true exactly when all checks of its round are
      true, and then each had been called exactly as often as it was added. */
  lemma {:induction false} WaitIsExact(s: State, i: nat)
    requires Reachable(s) && i < |s.results|
    ensures s.results[i].0 <==> forall c | c in s.results[i].1 :: c.ok
    ensures s.results[i].0 ==> s.results[i].2 == s.results[i].1
  {
    ReachableInv(s);
    assert AllTrue(s.results[i].1) <==> forall c | c in s.results[i].1 :: c.ok;
  }

  /** A master that waits without a notification on its way is waiting for a
      worker that holds a batch. */
  lemma {:induction false} BlockedMasterHasWorker(s: State)
    requires Reachable(s)
    ensures s.threads != []
    ensures s.threads[MASTER] == Waiting(false) ==>
              s.nTodo > 0 && exists t | 0 < t < |s.threads| :: s.threads[t].Holding?
  {
    ReachableInv(s);
    if s.threads[MASTER] == Waiting(false) {
      var c := Check(0, true);
      assert Conserves(s, c);
      var t := SomeHolder(s.threads, |s.threads|, c);
      assert 0 < t < |s.threads| && s.threads[t].Holding?;
    }
  }
}
