/**
  The code of CCheckQueue between taking and releasing the mutex, and the loop
  that runs a batch (src/checkqueue.h).  Each method is handed the protocol
  state `s` the object is in and the thread `t` that runs it, and is proved to
  leave the object in the state that the protocol's step leads to.
 */
module CheckQueueLock {
  import opened Common
  import opened CheckQueue

  /** How the critical section of `Loop` ends. */
  datatype Decision = Leave(result: bool) | Block | Work(batch: seq<Check>, ok: bool)

  class Queue {
    var queue: seq<Check>
    var nIdle: int
    var nTotal: int
    var fAllOk: bool
    var nTodo: int
    var fQuit: bool
    const nBatchSize: nat

    ghost predicate Is(s: State)
      reads this
    {
      && s.queue == queue && s.nIdle == nIdle && s.nTotal == nTotal
      && s.allOk == fAllOk && s.nTodo == nTodo && s.quit == fQuit && s.batchSize == nBatchSize
    }

    constructor (nBatchSizeIn: nat)
      ensures Is(Init(false, nBatchSizeIn))
    {
      queue, nIdle, nTotal, fAllOk, nTodo, fQuit := [], 0, 0, true, 0, false;
      nBatchSize := nBatchSizeIn;
    }

    /** Accounts for the batch just run; tells whether to notify the master. */
    method Account(fMaster: bool, nNow: nat, fOk: bool, ghost s: State, ghost t: nat) returns (notify: bool)
      requires Is(s) && t < |s.threads| && s.threads[t].Holding? && fMaster == (t == MASTER)
      requires nNow == |s.threads[t].done| && fOk == s.threads[t].ok
      modifies this
      ensures Is(CleanUp(s, t))
      ensures !notify && !fMaster ==> CleanUp(s, t).threads[MASTER] == s.threads[MASTER]
      ensures notify && s.threads[MASTER].Waiting? ==> CleanUp(s, t).threads[MASTER] == Waiting(true)
    {
      fAllOk := fAllOk && fOk;
      nTodo := nTodo - nNow;
      notify := nTodo == 0 && !fMaster;
    }

    /** The rest of the critical section; a thread that blocks comes back here
        when it wakes, one idle thread less. */
    method Proceed(fMaster: bool, ghost s: State, ghost t: nat) returns (d: Decision)
      requires Is(s) && t < |s.threads| && fMaster == (t == MASTER)
      requires nTotal + nIdle >= 0
      modifies this
      ensures Is(Section(s, t))
      ensures Section(s, t).threads[t] ==
                match d case Leave(_) => Outside case Block => Waiting(false) case Work(b, ok) => Holding(b, [], ok)
      ensures d.Leave? && fMaster ==> Section(s, t).results == s.results + [(d.result, s.round, s.called)]
    {
      if queue == [] {
        if (fMaster || fQuit) && nTodo == 0 {
          nTotal := nTotal - 1;
          var fRet := fAllOk;
          if fMaster {
            fAllOk := true;
          }
          return Leave(fRet);
        }
        nIdle := nIdle + 1;
        return Block;
      }
      var nNow := Max(1, Min(nBatchSize, |queue| / (nTotal + nIdle + 1)));
      assert nNow == BatchLength(s);
      var vChecks := Take(nNow);
      return Work(vChecks, fAllOk);
    }

    method Take(nNow: nat) returns (vChecks: seq<Check>)
      requires nNow <= |queue|
      modifies this`queue
      ensures queue == old(queue)[..|old(queue)| - nNow]
      ensures vChecks == Reverse(old(queue)[|old(queue)| - nNow..])
    {
      vChecks := [];
      var i := 0;
      while i < nNow
        invariant i <= nNow && queue == old(queue)[..|old(queue)| - i]
        invariant |vChecks| == i && forall k | 0 <= k < i :: vChecks[k] == old(queue)[|old(queue)| - 1 - k]
      {
        var last := |queue| - 1;
        vChecks := vChecks + [queue[last]];
        queue := queue[..last];
        i := i + 1;
      }
    }

    method Add(vChecks: seq<Check>, ghost s: State, ghost woken: set<nat>) returns (one: bool, all: bool)
      requires Is(s)
      modifies this
      ensures Is(Push(s, vChecks, woken))
      ensures one == (|vChecks| == 1) && all == (|vChecks| > 1)
    {
      var i := 0;
      while i < |vChecks|
        invariant i <= |vChecks| && queue == s.queue + vChecks[..i]
        invariant Is(s.(queue := queue))
      {
        queue := queue + [vChecks[i]];
        i := i + 1;
      }
      nTodo := nTodo + |vChecks|;
      one, all := |vChecks| == 1, |vChecks| > 1;
    }
  }

  /** Runs a batch outside the lock; no check is called after one has failed. */
  method RunBatch(vChecks: seq<Check>, fAllOk: bool) returns (fOk: bool)
    ensures fOk == (fAllOk && forall i | 0 <= i < |vChecks| :: vChecks[i].ok)
  {
    fOk := fAllOk;
    for i := 0 to |vChecks|
      invariant fOk == (fAllOk && forall j | 0 <= j < i :: vChecks[j].ok)
    {
      if fOk {
        fOk := vChecks[i].ok;
      }
    }
  }

  /** In the protocol the same batch is a run of `Call` steps with the same
      result. */
  lemma {:induction false} CallsRunBatch(s: State, t: nat)
    requires t < |s.threads| && s.threads[t].Holding?
    ensures var h := s.threads[t];
            Possible(s, Calls(t, |h.todo|)) &&
            var r := Run(s, Calls(t, |h.todo|));
            |r.threads| == |s.threads| &&
            r.threads[t] == Finished(h)
    decreases |s.threads[t].todo|
  {
    var h := s.threads[t];
    var n := |h.todo|;
    if n > 0 {
      assert Calls(t, n)[1..] == Calls(t, n - 1);
      var s' := RunNext(s, t);
      CallsRunBatch(s', t);
      FinishedNext(h, s'.threads[t]);
    }
  }

  /** Checks are called one after the other up to the first that fails, and none if
      the result was false before. */
  predicate StopsAfter(todo: seq<Check>, ok: bool, k: nat) {
    k <= |todo| &&
    if !ok then k == 0
    else (forall i | 0 <= i < k - 1 :: todo[i].ok) && (k < |todo| ==> k > 0 && !todo[k - 1].ok)
  }

  /** Those `k` checks are called, once each, and no others. */
  lemma {:induction false} BatchCalls(s: State, t: nat) returns (k: nat)
    requires t < |s.threads| && s.threads[t].Holding? && Possible(s, Calls(t, |s.threads[t].todo|))
    ensures var h := s.threads[t];
            var r := Run(s, Calls(t, |h.todo|));
            StopsAfter(h.todo, h.ok, k) &&
            r.ran == s.ran + multiset(h.todo[..k]) && r.called == s.called + multiset(h.todo[..k])
    decreases |s.threads[t].todo|
  {
    var h := s.threads[t];
    var n := |h.todo|;
    k := 0;
    if n > 0 {
      var s' := RunNext(s, t);
      FirstCall(s, t, n);
      var l := BatchCalls(s', t);
      CalledNext(h, s'.threads[t], l);
      k := if h.ok then l + 1 else 0;
      var a, b := if h.ok then multiset{h.todo[0]} else multiset{}, multiset(h.todo[1..][..l]);
      Joined(s.ran, s'.ran, a, b);
      Joined(s.called, s'.called, a, b);
    }
  }

  lemma {:induction false} Joined(m: multiset<Check>, n: multiset<Check>, a: multiset<Check>, b: multiset<Check>)
    requires n == m + a
    ensures n + b == m + (a + b)
  {
  }

  lemma {:induction false} FirstCall(s: State, t: nat, n: nat)
    requires n > 0 && Enabled(s, Call(t)) && Possible(s, Calls(t, n))
    ensures var r, h := RunNext(s, t), s.threads[t];
            var a := if h.ok then multiset{h.todo[0]} else multiset{};
            && Possible(r, Calls(t, n - 1)) && Run(s, Calls(t, n)) == Run(r, Calls(t, n - 1))
            && |r.threads| == |s.threads|
            && r.threads[t] == Holding(h.todo[1..], h.done + [h.todo[0]], h.ok && h.todo[0].ok)
            && r.ran == s.ran + a && r.called == s.called + a
  {
    assert Calls(t, n)[1..] == Calls(t, n - 1);
  }

  lemma {:induction false} CalledNext(h: Thread, g: Thread, l: nat)
    requires h.Holding? && g.Holding? && h.todo != []
    requires g.todo == h.todo[1..] && g.ok == (h.ok && h.todo[0].ok) && StopsAfter(g.todo, g.ok, l)
    ensures var k := if h.ok then l + 1 else 0;
            && StopsAfter(h.todo, h.ok, k)
            && multiset(h.todo[..k]) ==
               (if h.ok then multiset{h.todo[0]} else multiset{}) + multiset(g.todo[..l])
  {
    if h.ok {
      assert h.todo[..l + 1] == [h.todo[0]] + g.todo[..l];
      assert forall i | 0 < i < |h.todo| :: h.todo[i] == g.todo[i - 1];
    }
  }

  /** A thread with its batch done. */
  ghost function Finished(h: Thread): Thread
    requires h.Holding?
  {
    Holding([], h.done + h.todo, h.ok && forall i | 0 <= i < |h.todo| :: h.todo[i].ok)
  }

  lemma {:induction false} FinishedNext(h: Thread, g: Thread)
    requires h.Holding? && g.Holding? && h.todo != []
    requires g.todo == h.todo[1..] && g.done == h.done + [h.todo[0]] && g.ok == (h.ok && h.todo[0].ok)
    ensures Finished(g) == Finished(h)
  {
    assert g.done + g.todo == h.done + h.todo;
    assert forall i | 0 < i < |h.todo| :: h.todo[i] == g.todo[i - 1];
  }

  function Calls(t: nat, n: nat): seq<Event> {
    seq(n, _ => Call(t))
  }
}
