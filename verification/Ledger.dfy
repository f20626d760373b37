/**
  The zero-confirmation asset allocation ledger (src/assetallocation.cpp,
  src/assetallocation.h): amount sends checked on their way into the memory
  pool and again in blocks.  Pool sends write only the live table; a send in a
  block first puts every tuple it touches back to its proof-of-work state.
 */
module Ledger {
  import opened Common

  const MAX_RECEIVERS := 250
  const MAX_MEMO_LENGTH := 128
  const MAX_AMOUNT := 0x7fff_ffff_ffff_ffff

  /** CAmount: a 64-bit number with sign. */
  type Amount = x: int | -MAX_AMOUNT - 1 <= x <= MAX_AMOUNT

  /** What is left of a number in 64 bits. */
  function Wrap(x: int): (r: Amount) {
    (x + MAX_AMOUNT + 1) % WORD - MAX_AMOUNT - 1
  }

  /** How many times 2^64 is lost. */
  function Carry(x: int): (c: int)
    ensures Wrap(x) == x - c * WORD
  {
    (x + MAX_AMOUNT + 1) / WORD
  }

  datatype Tuple = Tuple(asset: int, owner: int)

  type Table = map<Tuple, Amount>

  /** The balances of "assetallocationi" and "assetallocationp" and the set of
      conflicting tuples. */
  datatype State = State(live: Table, pow: Table, conflicts: set<Tuple>)

  /** The outcome of the ownership check: an alias may also be a valid address. */
  datatype Claim = Owner | NotOwner(viaAlias: bool) | AliasIsAddress

  /** An amount send.  `known` and `ranged` stand for the presence of the asset
      and its use of input ranges. */
  datatype Transfer = Transfer(
    asset: int, sender: int, amounts: seq<(int, Amount)>, memo: nat, claim: Claim, known: bool, ranged: bool)

  datatype Mode = Pool | Block

  datatype Outcome = Error(code: int) | Done(overrun: bool)

  /** An absent allocation has balance 0. */
  function Balance(t: Table, k: Tuple): Amount {
    if k in t then t[k] else 0
  }

  function From(x: Transfer): Tuple {
    Tuple(x.asset, x.sender)
  }

  function To(x: Transfer, i: nat): Tuple
    requires i < |x.amounts|
  {
    Tuple(x.asset, x.amounts[i].0)
  }

  function Write(s: State, k: Tuple, balance: Amount, mode: Mode): State {
    s.(live := s.live[k := balance], pow := if mode.Block? then s.pow[k := balance] else s.pow)
  }

  /** RevertAssetAllocation: once per block, back to the proof-of-work state. */
  function Revert(s: State, reverted: set<Tuple>, k: Tuple): (State, set<Tuple>) {
    if k in reverted then (s, reverted)
    else (Write(s, k, Balance(s.pow, k), Block).(conflicts := s.conflicts - {k}), reverted + {k})
  }

  function RevertReceivers(s: State, reverted: set<Tuple>, x: Transfer, n: nat): (State, set<Tuple>)
    requires n <= |x.amounts|
  {
    if n == 0 then (s, reverted)
    else
      var (r, done) := RevertReceivers(s, reverted, x, n - 1);
      Revert(r, done, To(x, n - 1))
  }

  /** The true total of the first `n` amounts. */
  function Sum(x: Transfer, n: nat): int
    requires n <= |x.amounts|
  {
    if n == 0 then 0 else Sum(x, n - 1) + x.amounts[n - 1].1
  }

  /** The first amount that is not positive, if any, else the length. */
  function FirstBad(x: Transfer, n: nat): (k: nat)
    requires n <= |x.amounts|
    ensures n <= k <= |x.amounts|
    ensures forall i | n <= i < k :: x.amounts[i].1 > 0
    ensures k < |x.amounts| ==> x.amounts[k].1 <= 0
    decreases |x.amounts| - n
  {
    if n < |x.amounts| && x.amounts[n].1 > 0 then FirstBad(x, n + 1) else n
  }

  /** The first receiver that is the sender, if any, else the length. */
  function FirstSelf(x: Transfer, n: nat): (k: nat)
    requires n <= |x.amounts|
    ensures n <= k <= |x.amounts|
    ensures forall i | n <= i < k :: x.amounts[i].0 != x.sender
    ensures k < |x.amounts| ==> x.amounts[k].0 == x.sender
    decreases |x.amounts| - n
  {
    if n < |x.amounts| && x.amounts[n].0 != x.sender then FirstSelf(x, n + 1) else n
  }

  /** The loop that credits the first `n` receivers; on an overrun it writes
      their balances unchanged. */
  function Credit(s: State, x: Transfer, n: nat, overrun: bool, spread: bool, mode: Mode): State
    requires n <= |x.amounts|
  {
    if n == 0 then s
    else
      CreditOne(Credit(s, x, n - 1, overrun, spread, mode), x, n - 1, overrun, spread, mode)
  }

  /** One receiver. */
  function CreditOne(p: State, x: Transfer, i: nat, overrun: bool, spread: bool, mode: Mode): State
    requires i < |x.amounts|
  {
    var k := To(x, i);
    var c := if mode.Pool? && (spread || overrun) then p.conflicts + {k} else p.conflicts;
    var b := Balance(p.live, k);
    var credited := if overrun then b else Wrap(b + x.amounts[i].1);
    Write(p.(conflicts := c), k, credited, mode)
  }

  /** The send of amounts, once the sender's allocation has been read. */
  function Pay(s: State, reverted: set<Tuple>, x: Transfer, mode: Mode): (State, set<Tuple>, Outcome)
    requires From(x) in s.live
  {
    var bad := FirstBad(x, 0);
    var touched := if bad < |x.amounts| then bad + 1 else bad;
    var (r, done) := if mode.Block? then RevertReceivers(s, reverted, x, touched) else (s, reverted);
    if bad < |x.amounts| then (r, done, Error(1020))
    else
      var before := s.live[From(x)];
      var after := Wrap(before - Wrap(Sum(x, |x.amounts|)));
      var overrun := after < 0;
      var spread := mode.Pool? && !overrun && From(x) in r.conflicts;
      var marked := if mode.Pool? && overrun then r.(conflicts := r.conflicts + {From(x)}) else r;
      var self := FirstSelf(x, 0);
      var c := Credit(marked, x, self, overrun, spread, mode);
      if self < |x.amounts| then (c, done, Error(1022))
      else (Write(c, From(x), if overrun then before else after, mode), done, Done(overrun))
  }

  /** CheckAssetAllocationInputs for an amount send. */
  function Send(s: State, reverted: set<Tuple>, x: Transfer, mode: Mode): (State, set<Tuple>, Outcome) {
    if mode.Pool? && |x.amounts| == 0 then (s, reverted, Error(1004))
    else if mode.Pool? && |x.amounts| > MAX_RECEIVERS then (s, reverted, Error(1005))
    else if mode.Pool? && x.memo > MAX_MEMO_LENGTH then (s, reverted, Error(1006))
    else if x.claim.AliasIsAddress? then (s, reverted, Error(1016))
    else if From(x) !in s.live then (s, reverted, Error(1015))
    else if x.claim.NotOwner? then (s, reverted, Error(if x.claim.viaAlias then 1017 else 1015))
    else if !x.known then (s, reverted, Error(1016))
    else
      var (r, done) := if mode.Block? then Revert(s, reverted, From(x)) else (s, reverted);
      if x.amounts != [] && x.ranged then (r, done, Error(1018))
      else Pay(r, done, x, mode)
  }

  function SendBlock(s: State, reverted: set<Tuple>, xs: seq<Transfer>): State
    decreases |xs|
  {
    if xs == [] then s
    else
      var (r, done, _) := Send(s, reverted, xs[0], Block);
      SendBlock(r, done, xs[1..])
  }

  datatype Event = PoolSend(x: Transfer) | BlockConnected(xs: seq<Transfer>)

  function Step(s: State, e: Event): State {
    match e
    case PoolSend(x) => Send(s, {}, x, Pool).0
    case BlockConnected(xs) => SendBlock(s, {}, xs)
  }

  function Run(s: State, es: seq<Event>): State
    decreases |es|
  {
    if es == [] then s else Run(Step(s, es[0]), es[1..])
  }

  /** The blocks among the events. */
  function Blocks(es: seq<Event>): seq<Event> {
    if es == [] then []
    else if es[0].BlockConnected? then [es[0]] + Blocks(es[1..]) else Blocks(es[1..])
  }

  // ----- the effect of a send on balances, without tables

  /** What the first `n` receivers add up to for tuple `k`. */
  function CreditTo(x: Transfer, n: nat, k: Tuple): int
    requires n <= |x.amounts|
  {
    if n == 0 then 0 else CreditTo(x, n - 1, k) + if To(x, n - 1) == k then x.amounts[n - 1].1 else 0
  }

  /** A send that is not turned away before the amounts are looked at. */
  predicate Admitted(x: Transfer) {
    x.claim == Owner && x.known && (x.amounts == [] || !x.ranged)
  }

  /** A send takes effect if the sender has an allocation, all amounts are
      positive and, in 64 bits, covered. */
  predicate Effective(x: Transfer, present: bool, funds: Amount) {
    && Admitted(x) && present
    && FirstBad(x, 0) == |x.amounts| && Wrap(funds - Wrap(Sum(x, |x.amounts|))) >= 0
  }

  /** What the send takes from `k`. */
  function Debit(x: Transfer, k: Tuple): int {
    if FirstSelf(x, 0) == |x.amounts| && k == From(x) then Sum(x, |x.amounts|) else 0
  }

  /** The true balance of `k` after the send, if it was `b`. */
  function Due(x: Transfer, b: int, k: Tuple): int {
    b + CreditTo(x, FirstSelf(x, 0), k) - Debit(x, k)
  }

  /** The balance of `k` after the send, if it was `b` and the sender had
      `funds`. */
  function After(x: Transfer, present: bool, funds: Amount, b: Amount, k: Tuple): Amount {
    if Effective(x, present, funds) then Wrap(Due(x, b, k)) else b
  }

  lemma {:induction false} WrapSame(x: int, c: int)
    ensures Wrap(x + c * WORD) == Wrap(x)
  {
  }

  /** Wrapping on the way makes no difference. */
  lemma {:induction false} WrapTwice(x: int, y: int)
    ensures Wrap(Wrap(x) + y) == Wrap(x + y) && Wrap(y - Wrap(x)) == Wrap(y - x)
  {
    WrapSame(x + y, -Carry(x));
    WrapSame(y - x, Carry(x));
  }

  lemma {:induction false} PositiveSum(x: Transfer, n: nat)
    requires n <= |x.amounts| && FirstBad(x, 0) == |x.amounts|
    ensures Sum(x, n) >= n && (n > 0 ==> Sum(x, n) > 0)
  {
    if n > 0 {
      PositiveSum(x, n - 1);
    }
  }

  lemma {:induction false} CreditNonNegative(x: Transfer, n: nat, k: Tuple)
    requires n <= |x.amounts| && FirstBad(x, 0) == |x.amounts|
    ensures 0 <= CreditTo(x, n, k) <= Sum(x, n)
  {
    if n > 0 {
      CreditNonNegative(x, n - 1, k);
    }
  }

  lemma {:induction false} NoSelfCredit(x: Transfer, n: nat)
    requires n <= FirstSelf(x, 0)
    ensures CreditTo(x, n, From(x)) == 0
  {
    if n > 0 {
      NoSelfCredit(x, n - 1);
    }
  }

  // ----- sends into the pool

  /** A balance of `b` with the first `n` receivers credited. */
  predicate CreditedTo(x: Transfer, n: nat, overrun: bool, k: Tuple, b: Amount, r: Amount)
    requires n <= |x.amounts|
  {
    r == if overrun then b else Wrap(b + CreditTo(x, n, k))
  }

  /** One receiver more: what `k` had is `p`, what it has then is `r`. */
  lemma {:induction false} CreditNext(
    x: Transfer, i: nat, overrun: bool, k: Tuple, b: Amount, p: Amount, r: Amount)
    requires i < |x.amounts| && CreditedTo(x, i, overrun, k, b, p)
    requires r == if To(x, i) == k && !overrun then Wrap(p + x.amounts[i].1) else p
    ensures CreditedTo(x, i + 1, overrun, k, b, r)
  {
    WrapTwice(b + CreditTo(x, i, k), x.amounts[i].1);
  }

  lemma {:induction false} CreditOneLive(
    p: State, x: Transfer, i: nat, overrun: bool, spread: bool, mode: Mode, r: State, k: Tuple, b: Amount)
    requires i < |x.amounts| && r == CreditOne(p, x, i, overrun, spread, mode)
    requires CreditedTo(x, i, overrun, k, b, Balance(p.live, k))
    ensures CreditedTo(x, i + 1, overrun, k, b, Balance(r.live, k)) && (mode.Pool? ==> r.pow == p.pow)
  {
    CreditNext(x, i, overrun, k, b, Balance(p.live, k), Balance(r.live, k));
  }

  lemma {:induction false} CreditOnePow(p: State, x: Transfer, i: nat, overrun: bool, r: State, k: Tuple, b: Amount)
    requires i < |x.amounts| && r == CreditOne(p, x, i, overrun, false, Block)
    requires CreditedTo(x, i, overrun, k, b, Balance(p.pow, k))
    requires To(x, i) == k ==> Balance(p.live, k) == Balance(p.pow, k)
    ensures CreditedTo(x, i + 1, overrun, k, b, Balance(r.pow, k))
  {
    CreditNext(x, i, overrun, k, b, Balance(p.pow, k), Balance(r.pow, k));
  }

  lemma {:induction false} CreditLive(
    s: State, x: Transfer, n: nat, overrun: bool, spread: bool, mode: Mode, r: State, k: Tuple)
    requires n <= |x.amounts| && r == Credit(s, x, n, overrun, spread, mode)
    ensures CreditedTo(x, n, overrun, k, Balance(s.live, k), Balance(r.live, k))
    ensures mode.Pool? ==> r.pow == s.pow
    decreases n
  {
    if n > 0 {
      var p := Credit(s, x, n - 1, overrun, spread, mode);
      CreditLive(s, x, n - 1, overrun, spread, mode, p, k);
      CreditOneLive(p, x, n - 1, overrun, spread, mode, r, k, Balance(s.live, k));
    }
  }

  /** The pool turns a send away for its size. */
  predicate TooLarge(x: Transfer) {
    |x.amounts| > MAX_RECEIVERS || x.memo > MAX_MEMO_LENGTH
  }

  /** The end of Pay for one tuple, whose balance is `c` when the receivers are
      credited and `r` in the end. */
  lemma {:induction false} PaidAt(
    x: Transfer, k: Tuple, before: Amount, after: Amount, b: Amount, c: Amount, r: Amount)
    requires Admitted(x) && FirstBad(x, 0) == |x.amounts| && (k == From(x) ==> b == before)
    requires after == Wrap(before - Wrap(Sum(x, |x.amounts|))) && CreditedTo(x, FirstSelf(x, 0), after < 0, k, b, c)
    requires r == if FirstSelf(x, 0) < |x.amounts| || k != From(x) then c else if after < 0 then before else after
    ensures r == After(x, true, before, b, k) && (after < 0 ==> r == b)
  {
    NoSelfCredit(x, FirstSelf(x, 0));
    WrapTwice(Sum(x, |x.amounts|), before);
  }

  lemma {:induction false} PoolPaid(s: State, x: Transfer, k: Tuple)
    requires From(x) in s.live && Admitted(x)
    ensures var (r, _, out) := Pay(s, {}, x, Pool);
            && r.pow == s.pow
            && Balance(r.live, k) == After(x, true, Balance(s.live, From(x)), Balance(s.live, k), k)
            && (out == Done(true) ==> Balance(r.live, k) == Balance(s.live, k))
  {
    var (r, _, _) := Pay(s, {}, x, Pool);
    if FirstBad(x, 0) == |x.amounts| {
      var before := s.live[From(x)];
      var after := Wrap(before - Wrap(Sum(x, |x.amounts|)));
      var spread, self := after >= 0 && From(x) in s.conflicts, FirstSelf(x, 0);
      var marked := if after < 0 then s.(conflicts := s.conflicts + {From(x)}) else s;
      var c := Credit(marked, x, self, after < 0, spread, Pool);
      CreditLive(marked, x, self, after < 0, spread, Pool, c, k);
      PaidAt(x, k, before, after, Balance(s.live, k), Balance(c.live, k), Balance(r.live, k));
    }
  }

  /** A pool send leaves the proof-of-work table alone and moves the live
      balances as `After` says; an overrun moves nothing. */
  lemma {:induction false} PoolEffect(s: State, x: Transfer, k: Tuple)
    ensures var (r, _, out) := Send(s, {}, x, Pool);
            && r.pow == s.pow
            && Balance(r.live, k) ==
               (if TooLarge(x) then Balance(s.live, k)
                else After(x, From(x) in s.live, Balance(s.live, From(x)), Balance(s.live, k), k))
            && (out == Done(true) ==> Balance(r.live, k) == Balance(s.live, k))
  {
    if x.amounts == [] {
      assert Due(x, Balance(s.live, k), k) == Balance(s.live, k);
    } else if From(x) in s.live && Admitted(x) {
      PoolPaid(s, x, k);
    }
  }

  // ----- sends in a block

  /** The tuples reverted so far stand the same in both tables, and the live
      table knows every tuple of the other. */
  ghost predicate InBlock(s: State, reverted: set<Tuple>) {
    && s.pow.Keys <= s.live.Keys
    && forall k | k in reverted :: k in s.pow && s.live[k] == s.pow[k]
  }

  /** Balances of the proof-of-work table are those of `s`, and live balances
      outside `done` too. */
  ghost predicate OnlyReverted(s: State, r: State, done: set<Tuple>) {
    && (forall k: Tuple :: Balance(r.pow, k) == Balance(s.pow, k))
    && (forall k: Tuple | k !in done :: Balance(r.live, k) == Balance(s.live, k))
    && s.live.Keys <= r.live.Keys
  }

  lemma {:induction false} RevertKeeps(s: State, reverted: set<Tuple>, k: Tuple)
    requires InBlock(s, reverted)
    ensures var (r, done) := Revert(s, reverted, k);
            InBlock(r, done) && OnlyReverted(s, r, done) && done == reverted + {k}
  {
  }

  lemma {:induction false} RevertReceiversKeeps(s: State, reverted: set<Tuple>, x: Transfer, n: nat)
    requires InBlock(s, reverted) && n <= |x.amounts|
    ensures var (r, done) := RevertReceivers(s, reverted, x, n);
            && InBlock(r, done) && OnlyReverted(s, r, done) && reverted <= done
            && forall i | 0 <= i < n :: To(x, i) in done
  {
    if n > 0 {
      RevertReceiversKeeps(s, reverted, x, n - 1);
      var (r, done) := RevertReceivers(s, reverted, x, n - 1);
      RevertKeeps(r, done, To(x, n - 1));
    }
  }

  /** Tuples outside `done` are as before, and those in it alike in both tables. */
  ghost predicate Framed(s: State, r: State, done: set<Tuple>) {
    && InBlock(r, done) && s.live.Keys <= r.live.Keys
    && forall k: Tuple | k !in done :: Balance(r.live, k) == Balance(s.live, k)
  }

  lemma {:induction false} CreditOneFrame(
    s: State, p: State, done: set<Tuple>, x: Transfer, i: nat, overrun: bool, r: State)
    requires i < |x.amounts| && Framed(s, p, done) && To(x, i) in done && r == CreditOne(p, x, i, overrun, false, Block)
    ensures Framed(s, r, done)
  {
  }

  /** Credits in a block change reverted tuples only. */
  lemma {:induction false} CreditFrame(s: State, done: set<Tuple>, x: Transfer, n: nat, overrun: bool, r: State)
    requires n <= |x.amounts| && InBlock(s, done) && forall i | 0 <= i < n :: To(x, i) in done
    requires r == Credit(s, x, n, overrun, false, Block)
    ensures Framed(s, r, done)
    decreases n
  {
    if n > 0 {
      var p := Credit(s, x, n - 1, overrun, false, Block);
      CreditFrame(s, done, x, n - 1, overrun, p);
      CreditOneFrame(s, p, done, x, n - 1, overrun, r);
    }
  }

  lemma {:induction false} CreditPow(s: State, done: set<Tuple>, x: Transfer, n: nat, overrun: bool, r: State, k: Tuple)
    requires n <= |x.amounts| && InBlock(s, done) && forall i | 0 <= i < n :: To(x, i) in done
    requires r == Credit(s, x, n, overrun, false, Block)
    ensures PowCredited(s, r, x, n, overrun, k)
    decreases n
  {
    if n > 0 {
      var p := Credit(s, x, n - 1, overrun, false, Block);
      CreditPow(s, done, x, n - 1, overrun, p, k);
      CreditFrame(s, done, x, n - 1, overrun, p);
      assert To(x, n - 1) == k ==> Balance(p.live, k) == Balance(p.pow, k);
      CreditOnePow(p, x, n - 1, overrun, r, k, Balance(s.pow, k));
    }
  }

  lemma {:induction false} CreditBlock(s: State, done: set<Tuple>, x: Transfer, n: nat, overrun: bool, r: State)
    requires n <= |x.amounts| && InBlock(s, done) && forall i | 0 <= i < n :: To(x, i) in done
    requires r == Credit(s, x, n, overrun, false, Block)
    ensures Framed(s, r, done) && AllCredited(s, r, x, n, overrun)
  {
    CreditFrame(s, done, x, n, overrun, r);
    forall k: Tuple
      ensures PowCredited(s, r, x, n, overrun, k)
    {
      CreditPow(s, done, x, n, overrun, r, k);
    }
  }

  ghost predicate AllCredited(s: State, r: State, x: Transfer, n: nat, overrun: bool)
    requires n <= |x.amounts|
  {
    forall k: Tuple :: PowCredited(s, r, x, n, overrun, k)
  }

  predicate PowCredited(s: State, r: State, x: Transfer, n: nat, overrun: bool, k: Tuple)
    requires n <= |x.amounts|
  {
    CreditedTo(x, n, overrun, k, Balance(s.pow, k), Balance(r.pow, k))
  }

  ghost predicate SameBalances(a: Table, b: Table) {
    forall k: Tuple :: Balance(a, k) == Balance(b, k)
  }

  /** A block send, from a state that agrees with the tuples already reverted:
      the proof-of-work balances move as `After` says, whatever the live table
      held; nothing outside the reverted tuples changes. */
  ghost predicate Moved(s: State, r: State, done: set<Tuple>, x: Transfer) {
    && InBlock(r, done)
    && (forall k: Tuple | k !in done :: Balance(r.live, k) == Balance(s.live, k))
    && AfterSend(s.pow, r.pow, x, From(x) in s.live)
  }

  /** Table `u` has the balances of `t` after the send. */
  ghost predicate AfterSend(t: Table, u: Table, x: Transfer, present: bool) {
    forall k: Tuple :: AfterAt(t, u, x, present, k)
  }

  ghost predicate AfterAt(t: Table, u: Table, x: Transfer, present: bool, k: Tuple) {
    Balance(u, k) == After(x, present, Balance(t, From(x)), Balance(t, k), k)
  }

  lemma {:induction false} PayEffect(s: State, reverted: set<Tuple>, x: Transfer)
    requires InBlock(s, reverted) && From(x) in reverted && Admitted(x)
    ensures var (r, done, out) := Pay(s, reverted, x, Block);
            Moved(s, r, done, x) && reverted <= done &&
            (out == Done(true) ==> SameBalances(r.pow, s.pow))
  {
    var bad := FirstBad(x, 0);
    var touched := if bad < |x.amounts| then bad + 1 else bad;
    RevertReceiversKeeps(s, reverted, x, touched);
    var (r, done) := RevertReceivers(s, reverted, x, touched);
    PayUnfold(s, reverted, x, r, done);
    PayFormEffect(s, r, done, x, Pay(s, reverted, x, Block));
  }

  /** What Pay makes of the reverted state `r` in a block. */
  predicate PayForm(s: State, r: State, done: set<Tuple>, x: Transfer, res: (State, set<Tuple>, Outcome))
    requires From(x) in s.live
  {
    if FirstBad(x, 0) < |x.amounts| then res == (r, done, Error(1020))
    else
      var before := s.live[From(x)];
      var after := Wrap(before - Wrap(Sum(x, |x.amounts|)));
      var c := Credit(r, x, FirstSelf(x, 0), after < 0, false, Block);
      if FirstSelf(x, 0) < |x.amounts| then res == (c, done, Error(1022))
      else res == (Write(c, From(x), if after < 0 then before else after, Block), done, Done(after < 0))
  }

  lemma {:induction false} PayUnfold(s: State, reverted: set<Tuple>, x: Transfer, r: State, done: set<Tuple>)
    requires From(x) in s.live
    requires var bad := FirstBad(x, 0);
             (r, done) == RevertReceivers(s, reverted, x, if bad < |x.amounts| then bad + 1 else bad)
    ensures PayForm(s, r, done, x, Pay(s, reverted, x, Block))
  {
  }

  lemma {:induction false} PayFormEffect(
    s: State, r: State, done: set<Tuple>, x: Transfer, res: (State, set<Tuple>, Outcome))
    requires From(x) in s.live && From(x) in done && Admitted(x) && s.live[From(x)] == Balance(s.pow, From(x))
    requires InBlock(r, done) && OnlyReverted(s, r, done) && PayForm(s, r, done, x, res)
    requires FirstBad(x, 0) == |x.amounts| ==> forall i | 0 <= i < |x.amounts| :: To(x, i) in done
    ensures Moved(s, res.0, res.1, x) && res.1 == done
    ensures res.2 == Done(true) ==> SameBalances(res.0.pow, s.pow)
  {
    if FirstBad(x, 0) < |x.amounts| {
      Refused(s, r, done, x);
    } else {
      var before := s.live[From(x)];
      var after := Wrap(before - Wrap(Sum(x, |x.amounts|)));
      PaidForm(s, r, Credit(r, x, FirstSelf(x, 0), after < 0, false, Block), done, x, before, after, res.0);
    }
  }

  /** An amount is not positive: only the reverts have been done. */
  lemma {:induction false} Refused(s: State, r: State, done: set<Tuple>, x: Transfer)
    requires InBlock(r, done) && OnlyReverted(s, r, done) && FirstBad(x, 0) < |x.amounts|
    ensures Moved(s, r, done, x)
  {
  }

  /** All amounts are positive: state `c` has the receivers credited, and state
      `w` the sender written too, unless it is met among them. */
  ghost predicate Paid(
    r: State, c: State, done: set<Tuple>, x: Transfer, before: Amount, after: Amount, w: State)
  {
    && Admitted(x) && FirstBad(x, 0) == |x.amounts| && From(x) in done
    && after == Wrap(before - Wrap(Sum(x, |x.amounts|)))
    && w == if FirstSelf(x, 0) < |x.amounts| then c
            else Write(c, From(x), if after < 0 then before else after, Block)
  }

  lemma {:induction false} PaidForm(
    s: State, r: State, c: State, done: set<Tuple>, x: Transfer, before: Amount, after: Amount, w: State)
    requires Paid(r, c, done, x, before, after, w) && From(x) in s.live && before == Balance(s.pow, From(x))
    requires InBlock(r, done) && OnlyReverted(s, r, done) && forall i | 0 <= i < |x.amounts| :: To(x, i) in done
    requires c == Credit(r, x, FirstSelf(x, 0), after < 0, false, Block)
    ensures Moved(s, w, done, x) && (after < 0 ==> SameBalances(w.pow, s.pow))
  {
    CreditBlock(r, done, x, FirstSelf(x, 0), after < 0, c);
    PaidEffect(s, r, c, done, x, before, after, w);
    PaidFrame(s, r, c, done, x, before, after, w);
  }

  lemma {:induction false} PaidFrame(
    s: State, r: State, c: State, done: set<Tuple>, x: Transfer, before: Amount, after: Amount, w: State)
    requires Paid(r, c, done, x, before, after, w) && OnlyReverted(s, r, done) && Framed(r, c, done)
    ensures InBlock(w, done) && forall k: Tuple | k !in done :: Balance(w.live, k) == Balance(s.live, k)
  {
  }

  /** The proof-of-work balances in the end. */
  lemma {:induction false} PaidEffect(
    s: State, r: State, c: State, done: set<Tuple>, x: Transfer, before: Amount, after: Amount, w: State)
    requires Paid(r, c, done, x, before, after, w) && before == Balance(s.pow, From(x))
    requires OnlyReverted(s, r, done) && AllCredited(r, c, x, FirstSelf(x, 0), after < 0)
    ensures AfterSend(s.pow, w.pow, x, true) && (after < 0 ==> SameBalances(w.pow, s.pow))
  {
    forall k: Tuple
      ensures AfterAt(s.pow, w.pow, x, true, k)
      ensures after < 0 ==> Balance(w.pow, k) == Balance(s.pow, k)
    {
      assert PowCredited(r, c, x, FirstSelf(x, 0), after < 0, k);
      assert Balance(r.pow, k) == Balance(s.pow, k);
      PaidAt(x, k, before, after, Balance(s.pow, k), Balance(c.pow, k), Balance(w.pow, k));
    }
  }

  lemma {:induction false} BlockEffect(s: State, reverted: set<Tuple>, x: Transfer)
    requires InBlock(s, reverted)
    ensures var (r, done, out) := Send(s, reverted, x, Block);
            Moved(s, r, done, x) &&
            (out == Done(true) ==> SameBalances(r.pow, s.pow))
  {
    if From(x) in s.live && x.claim == Owner && x.known {
      RevertKeeps(s, reverted, From(x));
      var (r, done) := Revert(s, reverted, From(x));
      if x.amounts == [] || !x.ranged {
        PayEffect(r, done, x);
        var w := Pay(r, done, x, Block).0;
        forall k: Tuple
          ensures AfterAt(s.pow, w.pow, x, true, k)
        {
          assert AfterAt(r.pow, w.pow, x, true, k);
          assert Balance(r.pow, k) == Balance(s.pow, k) && Balance(r.pow, From(x)) == Balance(s.pow, From(x));
        }
      }
    }
  }

  // ----- the pool does not matter to the chain

  /** A send that pays out of an allocation of 0, because its total wraps.  For
      such a send it matters whether the pool has given the sender an entry. */
  predicate Phantom(x: Transfer) {
    Effective(x, true, 0) &&
    (Debit(x, From(x)) % WORD != 0 ||
     exists i | 0 <= i < FirstSelf(x, 0) :: CreditTo(x, FirstSelf(x, 0), To(x, i)) % WORD != 0)
  }

  /** No send whose true total is at most 2^63 is one. */
  lemma {:induction false} ModestIsNoPhantom(x: Transfer)
    requires Sum(x, |x.amounts|) <= MAX_AMOUNT + 1
    ensures !Phantom(x)
  {
    if Effective(x, true, 0) {
      WrapTwice(Sum(x, |x.amounts|), 0);
      PositiveSum(x, |x.amounts|);
    }
  }

  lemma {:induction false} UnlistedCredit(x: Transfer, n: nat, k: Tuple)
    requires n <= |x.amounts| && forall i | 0 <= i < n :: To(x, i) != k
    ensures CreditTo(x, n, k) == 0
  {
    if n > 0 {
      UnlistedCredit(x, n - 1, k);
    }
  }

  /** Otherwise a sender of 0 changes nothing, whether it has an entry or not. */
  lemma {:induction false} NoFunds(x: Transfer, present: bool, b: Amount, k: Tuple)
    requires !Phantom(x)
    ensures After(x, present, 0, b, k) == b
  {
    if Effective(x, present, 0) {
      var self := FirstSelf(x, 0);
      CreditIsMultiple(x, k);
      WrapSame(b, CreditTo(x, self, k) / WORD - Debit(x, k) / WORD);
    }
  }

  lemma {:induction false} CreditIsMultiple(x: Transfer, k: Tuple)
    requires !Phantom(x) && Effective(x, true, 0)
    ensures CreditTo(x, FirstSelf(x, 0), k) % WORD == 0
  {
    var self := FirstSelf(x, 0);
    if i :| 0 <= i < self && To(x, i) == k {
      assert CreditTo(x, self, To(x, i)) % WORD == 0;
    } else {
      UnlistedCredit(x, self, k);
    }
  }

  /** The transfers of all blocks pass the test `p`. */
  ghost predicate InBlocks(es: seq<Event>, p: Transfer -> bool) {
    forall i | 0 <= i < |es| && es[i].BlockConnected? :: forall j | 0 <= j < |es[i].xs| :: p(es[i].xs[j])
  }

  lemma {:induction false} SendSame(s: State, done: set<Tuple>, t: State, done': set<Tuple>, x: Transfer)
    requires InBlock(s, done) && InBlock(t, done') && SameBalances(s.pow, t.pow) && !Phantom(x)
    ensures SameBalances(Send(s, done, x, Block).0.pow, Send(t, done', x, Block).0.pow)
  {
    BlockEffect(s, done, x);
    BlockEffect(t, done', x);
    var r, u := Send(s, done, x, Block).0, Send(t, done', x, Block).0;
    forall k: Tuple
      ensures Balance(r.pow, k) == Balance(u.pow, k)
    {
      assert AfterAt(s.pow, r.pow, x, From(x) in s.live, k) && AfterAt(t.pow, u.pow, x, From(x) in t.live, k);
      assert Balance(s.pow, k) == Balance(t.pow, k) && Balance(s.pow, From(x)) == Balance(t.pow, From(x));
      NoFunds(x, From(x) in s.live, Balance(s.pow, k), k);
      NoFunds(x, From(x) in t.live, Balance(s.pow, k), k);
    }
  }

  lemma {:induction false} SendBlockSame(s: State, done: set<Tuple>, t: State, done': set<Tuple>, xs: seq<Transfer>)
    requires InBlock(s, done) && InBlock(t, done') && SameBalances(s.pow, t.pow)
    requires forall j | 0 <= j < |xs| :: !Phantom(xs[j])
    ensures SameBalances(SendBlock(s, done, xs).pow, SendBlock(t, done', xs).pow)
    ensures InBlock(SendBlock(s, done, xs), {}) && InBlock(SendBlock(t, done', xs), {})
    decreases |xs|
  {
    if xs != [] {
      BlockEffect(s, done, xs[0]);
      BlockEffect(t, done', xs[0]);
      SendSame(s, done, t, done', xs[0]);
      var (r, d, _) := Send(s, done, xs[0], Block);
      var (u, d', _) := Send(t, done', xs[0], Block);
      SendBlockSame(r, d, u, d', xs[1..]);
    }
  }

  lemma {:induction false} PoolKeepsPow(s: State, x: Transfer)
    requires InBlock(s, {})
    ensures Step(s, PoolSend(x)).pow == s.pow && InBlock(Step(s, PoolSend(x)), {})
  {
    PoolEffect(s, x, From(x));
    CreditKeys(s, x, FirstSelf(x, 0));
  }

  lemma {:induction false} CreditKeys(s: State, x: Transfer, n: nat)
    requires n <= |x.amounts|
    ensures forall c: set<Tuple>, overrun: bool, spread: bool ::
              s.live.Keys <= Credit(s.(conflicts := c), x, n, overrun, spread, Pool).live.Keys
  {
    if n > 0 {
      CreditKeys(s, x, n - 1);
    }
  }

  /** Whatever pool sends happen between the blocks, the proof-of-work balances
      are those of the blocks alone, as long as no block holds a phantom. */
  lemma {:induction false} PoolIsInvisible(s: State, t: State, es: seq<Event>)
    requires InBlock(s, {}) && InBlock(t, {}) && SameBalances(s.pow, t.pow)
    requires InBlocks(es, x => !Phantom(x))
    ensures SameBalances(Run(s, es).pow, Run(t, Blocks(es)).pow)
    decreases |es|
  {
    if es != [] {
      assert InBlocks(es[1..], x => !Phantom(x));
      match es[0]
      case PoolSend(x) =>
        PoolKeepsPow(s, x);
        PoolIsInvisible(Step(s, es[0]), t, es[1..]);
      case BlockConnected(xs) =>
        SendBlockSame(s, {}, t, {}, xs);
        assert Blocks(es)[1..] == Blocks(es[1..]);
        PoolIsInvisible(Step(s, es[0]), Step(t, es[0]), es[1..]);
    }
  }

  /** That condition is exact: a block of one send has the same effect from all
      states with equal proof-of-work balances if and only if it is no phantom. */
  lemma {:induction false} InvisibleIff(x: Transfer)
    ensures (forall s, t | InBlock(s, {}) && InBlock(t, {}) && SameBalances(s.pow, t.pow) ::
               SameBalances(SendBlock(s, {}, [x]).pow, SendBlock(t, {}, [x]).pow)) <==> !Phantom(x)
  {
    if Phantom(x) {
      PhantomShows(x);
    } else {
      forall s, t | InBlock(s, {}) && InBlock(t, {}) && SameBalances(s.pow, t.pow)
        ensures SameBalances(SendBlock(s, {}, [x]).pow, SendBlock(t, {}, [x]).pow)
      {
        SendBlockSame(s, {}, t, {}, [x]);
      }
    }
  }

  lemma {:induction false} PhantomShows(x: Transfer)
    requires Phantom(x)
    ensures var s, t := State(map[From(x) := 0], map[], {}), State(map[], map[], {});
            InBlock(s, {}) && InBlock(t, {}) && SameBalances(s.pow, t.pow) &&
            !SameBalances(SendBlock(s, {}, [x]).pow, SendBlock(t, {}, [x]).pow)
  {
    var s, t := State(map[From(x) := 0], map[], {}), State(map[], map[], {});
    var k := PhantomMoves(x);
    BlockEffect(s, {}, x);
    var r, u := Send(s, {}, x, Block).0, Send(t, {}, x, Block).0;
    assert AfterAt(s.pow, r.pow, x, true, k);
    OneSend(s, x);
    OneSend(t, x);
    assert u == t && Balance(r.pow, k) != Balance(u.pow, k);
  }

  lemma {:induction false} OneSend(s: State, x: Transfer)
    ensures SendBlock(s, {}, [x]) == Send(s, {}, x, Block).0
  {
    assert [x][1..] == [];
    var (r, done, _) := Send(s, {}, x, Block);
    assert SendBlock(r, done, []) == r;
  }

  lemma {:induction false} PhantomMoves(x: Transfer) returns (k: Tuple)
    requires Phantom(x)
    ensures Wrap(Due(x, 0, k)) != 0
  {
    var self := FirstSelf(x, 0);
    k := From(x);
    NoSelfCredit(x, self);
    if Debit(x, From(x)) % WORD == 0 {
      var i :| 0 <= i < self && CreditTo(x, self, To(x, i)) % WORD != 0;
      k := To(x, i);
      assert Due(x, 0, k) == CreditTo(x, self, k);
    } else {
      assert Due(x, 0, k) == -Debit(x, k);
    }
  }

  lemma {:induction false} PhantomExample(x: Transfer)
    requires x == Transfer(0, 5, [(2, MAX_AMOUNT), (3, MAX_AMOUNT), (4, 2)], 0, Owner, true, false)
    ensures Phantom(x)
  {
    WrappingTotal(x);
    assert CreditTo(x, 3, To(x, 2)) % WORD == 2;
  }

  /** Owner 5 gets an entry in the pool, and a block has owner 5 pay owners 2 and
      3 the largest amount each, and 2 to owner 4: the total wraps to 0.  With the
      pool send, owner 2 ends up with the largest amount; without it, with
      nothing. */
  lemma {:induction false} PhantomRun()
    ensures var x := Transfer(0, 5, [(2, MAX_AMOUNT), (3, MAX_AMOUNT), (4, 2)], 0, Owner, true, false);
            var y := Transfer(0, 1, [(5, 1)], 0, Owner, true, false);
            var s := State(map[Tuple(0, 1) := 10], map[Tuple(0, 1) := 10], {});
            var es := [PoolSend(y), BlockConnected([x])];
            && Phantom(x) && InBlock(s, {}) && Balance(Run(s, es).pow, Tuple(0, 2)) == MAX_AMOUNT
            && Blocks(es) == [BlockConnected([x])] && Balance(Run(s, Blocks(es)).pow, Tuple(0, 2)) == 0
  {
    var x := Transfer(0, 5, [(2, MAX_AMOUNT), (3, MAX_AMOUNT), (4, 2)], 0, Owner, true, false);
    var y := Transfer(0, 1, [(5, 1)], 0, Owner, true, false);
    var s := State(map[Tuple(0, 1) := 10], map[Tuple(0, 1) := 10], {});
    PhantomExample(x);
    PaysFive(s, y);
    TwoEvents(s, y, x);
    WrappedBlock(Step(s, PoolSend(y)), x);
    assert Send(s, {}, x, Block).0 == s;
  }

  /** A pool send and a block of one send. */
  lemma {:induction false} TwoEvents(s: State, y: Transfer, x: Transfer)
    requires InBlock(s, {})
    ensures var es := [PoolSend(y), BlockConnected([x])];
            && Run(s, es) == Send(Step(s, PoolSend(y)), {}, x, Block).0
            && Blocks(es) == [BlockConnected([x])] && Run(s, Blocks(es)) == Send(s, {}, x, Block).0
    ensures Step(s, PoolSend(y)).pow == s.pow && InBlock(Step(s, PoolSend(y)), {})
  {
    var es, blocks := [PoolSend(y), BlockConnected([x])], [BlockConnected([x])];
    assert es[1..] == blocks && blocks[1..] == [];
    var p := Step(s, PoolSend(y));
    PoolKeepsPow(s, y);
    OneSend(p, x);
    OneSend(s, x);
    assert Blocks(blocks) == blocks + Blocks([]) == blocks;
    assert Run(p, blocks) == Run(Step(p, blocks[0]), []) == Step(p, blocks[0]);
    assert Run(s, blocks) == Run(Step(s, blocks[0]), []) == Step(s, blocks[0]);
  }

  /** Owner 5 has an entry in the live table only. */
  lemma {:induction false} WrappedBlock(p: State, x: Transfer)
    requires x == Transfer(0, 5, [(2, MAX_AMOUNT), (3, MAX_AMOUNT), (4, 2)], 0, Owner, true, false)
    requires InBlock(p, {}) && Tuple(0, 5) in p.live && Balance(p.pow, Tuple(0, 5)) == 0
    requires Balance(p.pow, Tuple(0, 2)) == 0
    ensures Balance(Send(p, {}, x, Block).0.pow, Tuple(0, 2)) == MAX_AMOUNT
  {
    WrappingTotal(x);
    BlockEffect(p, {}, x);
    assert AfterAt(p.pow, Send(p, {}, x, Block).0.pow, x, true, Tuple(0, 2));
  }

  lemma {:induction false} PaysFive(s: State, y: Transfer)
    requires y == Transfer(0, 1, [(5, 1)], 0, Owner, true, false)
    requires s == State(map[Tuple(0, 1) := 10], map[Tuple(0, 1) := 10], {})
    ensures Tuple(0, 5) in Send(s, {}, y, Pool).0.live
  {
    assert FirstSelf(y, 0) == 1 && FirstBad(y, 0) == 1;
    assert Sum(y, 0) == 0 && Sum(y, 1) == 1;
    assert Credit(s, y, 0, false, false, Pool) == s;
  }

  lemma {:induction false} WrappingTotal(x: Transfer)
    requires x.amounts == [(2, MAX_AMOUNT), (3, MAX_AMOUNT), (4, 2)] && x.sender != 2 && x.sender != 3 && x.sender != 4
    ensures FirstBad(x, 0) == FirstSelf(x, 0) == 3 && Sum(x, 3) == WORD && Wrap(Sum(x, 3)) == 0
    ensures CreditTo(x, 3, Tuple(x.asset, 2)) == CreditTo(x, 3, Tuple(x.asset, 3)) == MAX_AMOUNT
    ensures CreditTo(x, 3, Tuple(x.asset, 4)) == 2
  {
    assert FirstBad(x, 2) == 3 && FirstBad(x, 1) == 3;
    assert FirstSelf(x, 2) == 3 && FirstSelf(x, 1) == 3;
    assert Sum(x, 0) == 0 && Sum(x, 1) == MAX_AMOUNT && Sum(x, 2) == 2 * MAX_AMOUNT;
    forall k: Tuple
      ensures CreditTo(x, 3, k) == (if To(x, 0) == k then MAX_AMOUNT else 0) +
                (if To(x, 1) == k then MAX_AMOUNT else 0) + if To(x, 2) == k then 2 else 0
    {
      assert CreditTo(x, 0, k) == 0;
      assert CreditTo(x, 1, k) == if To(x, 0) == k then MAX_AMOUNT else 0;
    }
  }

  // ----- no balance becomes negative

  ghost predicate NonNegative(t: Table) {
    forall k: Tuple :: Balance(t, k) >= 0
  }

  /** What receiver `i` holds afterwards, taken modulo 2^64, is an amount. */
  predicate RoomFor(t: Table, x: Transfer, i: nat)
    requires i < FirstSelf(x, 0)
  {
    (Balance(t, To(x, i)) + CreditTo(x, FirstSelf(x, 0), To(x, i))) % WORD <= MAX_AMOUNT
  }

  predicate RoomForAll(t: Table, x: Transfer, present: bool) {
    Effective(x, present, Balance(t, From(x))) ==> forall i | 0 <= i < FirstSelf(x, 0) :: RoomFor(t, x, i)
  }

  lemma {:induction false} WrapSign(v: int)
    ensures Wrap(v) >= 0 <==> v % WORD <= MAX_AMOUNT
  {
  }

  /** A send leaves no negative balance if and only if there is room for what
      every receiver gets. */
  lemma {:induction false} NonNegativeIff(t: Table, u: Table, x: Transfer, present: bool)
    requires NonNegative(t) && AfterSend(t, u, x, present)
    ensures NonNegative(u) <==> RoomForAll(t, x, present)
  {
    if Effective(x, present, Balance(t, From(x))) {
      var self := FirstSelf(x, 0);
      forall k: Tuple
        ensures Balance(u, k) >= 0 || exists i | 0 <= i < self :: To(x, i) == k && !RoomFor(t, x, i)
      {
        assert AfterAt(t, u, x, present, k);
        if i :| 0 <= i < self && To(x, i) == k {
          ReceiverSign(t, x, i);
        } else {
          UnlistedStays(t, x, present, k);
        }
      }
      forall i | 0 <= i < self
        ensures Balance(u, To(x, i)) >= 0 ==> RoomFor(t, x, i)
      {
        assert AfterAt(t, u, x, present, To(x, i));
        ReceiverSign(t, x, i);
      }
    } else {
      forall k: Tuple
        ensures Balance(u, k) >= 0
      {
        assert AfterAt(t, u, x, present, k);
      }
    }
  }

  lemma {:induction false} ReceiverSign(t: Table, x: Transfer, i: nat)
    requires i < FirstSelf(x, 0)
    ensures Wrap(Due(x, Balance(t, To(x, i)), To(x, i))) >= 0 <==> RoomFor(t, x, i)
  {
    assert To(x, i) != From(x);
    WrapSign(Due(x, Balance(t, To(x, i)), To(x, i)));
  }

  lemma {:induction false} UnlistedStays(t: Table, x: Transfer, present: bool, k: Tuple)
    requires Effective(x, present, Balance(t, From(x))) && Balance(t, k) >= 0
    requires forall i | 0 <= i < FirstSelf(x, 0) :: To(x, i) != k
    ensures Wrap(Due(x, Balance(t, k), k)) >= 0
  {
    UnlistedCredit(x, FirstSelf(x, 0), k);
    WrapTwice(Sum(x, |x.amounts|), Balance(t, k));
  }

  /** There is room at every send of the block, as it comes. */
  predicate RoomyBlock(s: State, reverted: set<Tuple>, xs: seq<Transfer>)
    decreases |xs|
  {
    xs == [] ||
    (RoomForAll(s.pow, xs[0], From(xs[0]) in s.live) &&
     var (r, done, _) := Send(s, reverted, xs[0], Block); RoomyBlock(r, done, xs[1..]))
  }

  predicate Roomy(s: State, es: seq<Event>)
    decreases |es|
  {
    es == [] ||
    (match es[0] {
       case PoolSend(x) => TooLarge(x) || RoomForAll(s.live, x, From(x) in s.live)
       case BlockConnected(xs) => RoomyBlock(s, {}, xs)
     } && Roomy(Step(s, es[0]), es[1..]))
  }

  lemma {:induction false} PoolAfter(s: State, x: Transfer)
    ensures var r := Send(s, {}, x, Pool).0;
            if TooLarge(x) then SameBalances(s.live, r.live) else AfterSend(s.live, r.live, x, From(x) in s.live)
  {
    var r := Send(s, {}, x, Pool).0;
    forall k: Tuple
      ensures if TooLarge(x) then Balance(r.live, k) == Balance(s.live, k)
              else AfterAt(s.live, r.live, x, From(x) in s.live, k)
    {
      PoolEffect(s, x, k);
    }
  }

  lemma {:induction false} PoolNonNegative(s: State, x: Transfer)
    requires NonNegative(s.live)
    ensures NonNegative(Send(s, {}, x, Pool).0.live) <==> TooLarge(x) || RoomForAll(s.live, x, From(x) in s.live)
  {
    PoolAfter(s, x);
    if !TooLarge(x) {
      NonNegativeIff(s.live, Send(s, {}, x, Pool).0.live, x, From(x) in s.live);
    }
  }

  lemma {:induction false} BlockNonNegative(s: State, reverted: set<Tuple>, x: Transfer)
    requires InBlock(s, reverted) && NonNegative(s.live) && NonNegative(s.pow)
    ensures var (r, done, _) := Send(s, reverted, x, Block);
            InBlock(r, done) && (NonNegative(r.pow) <==> RoomForAll(s.pow, x, From(x) in s.live)) &&
            (NonNegative(r.pow) ==> NonNegative(r.live))
  {
    BlockEffect(s, reverted, x);
    var (r, done, _) := Send(s, reverted, x, Block);
    NonNegativeIff(s.pow, r.pow, x, From(x) in s.live);
    if NonNegative(r.pow) {
      forall k: Tuple
        ensures Balance(r.live, k) >= 0
      {
        assert k in done ==> Balance(r.live, k) == Balance(r.pow, k);
        assert k !in done ==> Balance(r.live, k) == Balance(s.live, k);
      }
    }
  }

  /** No proof-of-work balance is negative at any point of the block. */
  ghost predicate SafeBlock(s: State, reverted: set<Tuple>, xs: seq<Transfer>)
    decreases |xs|
  {
    NonNegative(s.pow) &&
    (xs == [] || var (r, done, _) := Send(s, reverted, xs[0], Block); SafeBlock(r, done, xs[1..]))
  }

  /** No balance of either table is negative at any point of the run. */
  ghost predicate Safe(s: State, es: seq<Event>)
    decreases |es|
  {
    NonNegative(s.live) && NonNegative(s.pow) &&
    (es == [] || ((es[0].BlockConnected? ==> SafeBlock(s, {}, es[0].xs)) && Safe(Step(s, es[0]), es[1..])))
  }

  lemma {:induction false} BlocksNonNegative(s: State, reverted: set<Tuple>, xs: seq<Transfer>)
    requires InBlock(s, reverted) && NonNegative(s.live) && NonNegative(s.pow)
    ensures SafeBlock(s, reverted, xs) <==> RoomyBlock(s, reverted, xs)
    ensures var r := SendBlock(s, reverted, xs);
            InBlock(r, {}) && (RoomyBlock(s, reverted, xs) ==> NonNegative(r.live) && NonNegative(r.pow))
    decreases |xs|
  {
    if xs != [] {
      BlockNonNegative(s, reverted, xs[0]);
      var (r, done, _) := Send(s, reverted, xs[0], Block);
      if NonNegative(r.pow) {
        BlocksNonNegative(r, done, xs[1..]);
      } else {
        BlocksInBlock(r, done, xs[1..]);
      }
    }
  }

  lemma {:induction false} BlocksInBlock(s: State, reverted: set<Tuple>, xs: seq<Transfer>)
    requires InBlock(s, reverted)
    ensures InBlock(SendBlock(s, reverted, xs), {})
    decreases |xs|
  {
    if xs != [] {
      BlockEffect(s, reverted, xs[0]);
      var (r, done, _) := Send(s, reverted, xs[0], Block);
      BlocksInBlock(r, done, xs[1..]);
    }
  }

  /** A run from non-negative tables never shows a negative balance if and only
      if at every send there is room for what the receivers get. */
  lemma {:induction false} RunNonNegative(s: State, es: seq<Event>)
    requires InBlock(s, {}) && NonNegative(s.live) && NonNegative(s.pow)
    ensures Safe(s, es) <==> Roomy(s, es)
    decreases |es|
  {
    if es != [] {
      var r := Step(s, es[0]);
      match es[0] {
        case PoolSend(x) =>
          PoolKeepsPow(s, x);
          PoolNonNegative(s, x);
        case BlockConnected(xs) =>
          BlocksNonNegative(s, {}, xs);
      }
      if NonNegative(r.live) && NonNegative(r.pow) {
        RunNonNegative(r, es[1..]);
      }
    }
  }

  /** Owner 2 holds 5 and is sent the largest amount: the balance wraps below 0. */
  lemma {:induction false} NegativeExample()
    ensures var x := Transfer(0, 1, [(2, MAX_AMOUNT)], 0, Owner, true, false);
            var s := State(map[Tuple(0, 1) := MAX_AMOUNT, Tuple(0, 2) := 5], map[], {});
            var (r, _, out) := Send(s, {}, x, Pool);
            out == Done(false) && Balance(r.live, Tuple(0, 2)) == 3 - MAX_AMOUNT
  {
    var x := Transfer(0, 1, [(2, MAX_AMOUNT)], 0, Owner, true, false);
    var s := State(map[Tuple(0, 1) := MAX_AMOUNT, Tuple(0, 2) := 5], map[], {});
    PoolEffect(s, x, Tuple(0, 2));
    assert FirstSelf(x, 0) == 1 && FirstBad(x, 0) == 1;
    assert Sum(x, 0) == 0 && Sum(x, 1) == MAX_AMOUNT;
    assert CreditTo(x, 0, Tuple(0, 2)) == 0 && CreditTo(x, 1, Tuple(0, 2)) == MAX_AMOUNT;
  }

  // ----- conservation

  /** The balances of the first `n` of some holders together. */
  function Wealth(t: Table, holders: seq<Tuple>, n: nat): int
    requires n <= |holders|
  {
    if n == 0 then 0 else Wealth(t, holders, n - 1) + Balance(t, holders[n - 1])
  }

  /** Distinct holders, among them everybody the send names. */
  predicate Closed(holders: seq<Tuple>, x: Transfer) {
    && (forall i, j | 0 <= i < j < |holders| :: holders[i] != holders[j])
    && From(x) in holders
    && (forall i | 0 <= i < |x.amounts| :: To(x, i) in holders)
  }

  function CreditsOf(x: Transfer, n: nat, holders: seq<Tuple>, h: nat): int
    requires n <= |x.amounts| && h <= |holders|
  {
    if h == 0 then 0 else CreditsOf(x, n, holders, h - 1) + CreditTo(x, n, holders[h - 1])
  }

  /** One more receiver adds its amount to exactly one holder. */
  lemma {:induction false} OneMoreCredit(x: Transfer, n: nat, holders: seq<Tuple>, h: nat)
    requires 0 < n <= |x.amounts| && h <= |holders|
    requires forall i, j | 0 <= i < j < |holders| :: holders[i] != holders[j]
    ensures CreditsOf(x, n, holders, h) == CreditsOf(x, n - 1, holders, h) +
              if To(x, n - 1) in holders[..h] then x.amounts[n - 1].1 else 0
  {
    if h > 0 {
      OneMoreCredit(x, n, holders, h - 1);
      var k := To(x, n - 1);
      assert holders[..h] == holders[..h - 1] + [holders[h - 1]];
      assert k in holders[..h] <==> k in holders[..h - 1] || k == holders[h - 1];
    }
  }

  lemma {:induction false} NoCredits(x: Transfer, holders: seq<Tuple>, h: nat)
    requires h <= |holders|
    ensures CreditsOf(x, 0, holders, h) == 0
  {
    if h > 0 {
      NoCredits(x, holders, h - 1);
    }
  }

  lemma {:induction false} CreditsAddUp(x: Transfer, n: nat, holders: seq<Tuple>)
    requires n <= |x.amounts| && Closed(holders, x)
    ensures CreditsOf(x, n, holders, |holders|) == Sum(x, n)
  {
    if n == 0 {
      NoCredits(x, holders, |holders|);
    } else {
      CreditsAddUp(x, n - 1, holders);
      OneMoreCredit(x, n, holders, |holders|);
      assert holders[..|holders|] == holders;
      assert To(x, n - 1) in holders;
    }
  }

  /** What the first `h` holders lose to wrapping, in units of 2^64. */
  function Lost(t: Table, x: Transfer, holders: seq<Tuple>, h: nat): int
    requires h <= |holders|
  {
    if h == 0 then 0 else Lost(t, x, holders, h - 1) + Carry(Due(x, Balance(t, holders[h - 1]), holders[h - 1]))
  }

  lemma {:induction false} WealthAfter(
    t: Table, u: Table, x: Transfer, present: bool, holders: seq<Tuple>, h: nat)
    requires AfterSend(t, u, x, present) && Effective(x, present, Balance(t, From(x))) && h <= |holders|
    requires forall i, j | 0 <= i < j < |holders| :: holders[i] != holders[j]
    ensures Wealth(u, holders, h) == Wealth(t, holders, h) + CreditsOf(x, FirstSelf(x, 0), holders, h)
              - (if From(x) in holders[..h] then Debit(x, From(x)) else 0) - Lost(t, x, holders, h) * WORD
  {
    if h > 0 {
      WealthAfter(t, u, x, present, holders, h - 1);
      var k := holders[h - 1];
      assert holders[..h] == holders[..h - 1] + [k];
      assert From(x) in holders[..h] <==> From(x) in holders[..h - 1] || From(x) == k;
      assert AfterAt(t, u, x, present, k);
    }
  }

  lemma {:induction false} WealthSame(t: Table, u: Table, holders: seq<Tuple>, h: nat)
    requires SameBalances(t, u) && h <= |holders|
    ensures Wealth(u, holders, h) == Wealth(t, holders, h)
  {
    if h > 0 {
      WealthSame(t, u, holders, h - 1);
    }
  }

  /** An effective send that names its sender, though not first, credits those
      before it and then stops. */
  predicate StopsHalfway(x: Transfer) {
    0 < FirstSelf(x, 0) < |x.amounts|
  }

  /** What an effective send creates: the credits that no debit answers, less
      what wrapping destroys. */
  function Created(t: Table, x: Transfer, holders: seq<Tuple>): int {
    (if StopsHalfway(x) then Sum(x, FirstSelf(x, 0)) else 0) - Lost(t, x, holders, |holders|) * WORD
  }

  /** A send changes what its holders own together by exactly what it creates. */
  lemma {:induction false} TotalChange(t: Table, u: Table, x: Transfer, present: bool, holders: seq<Tuple>)
    requires AfterSend(t, u, x, present) && Closed(holders, x)
    ensures Wealth(u, holders, |holders|) == Wealth(t, holders, |holders|) +
              if Effective(x, present, Balance(t, From(x))) then Created(t, x, holders) else 0
  {
    var self := FirstSelf(x, 0);
    if Effective(x, present, Balance(t, From(x))) {
      WealthAfter(t, u, x, present, holders, |holders|);
      CreditsAddUp(x, self, holders);
      assert holders[..|holders|] == holders;
    } else {
      forall k: Tuple
        ensures Balance(t, k) == Balance(u, k)
      {
        assert AfterAt(t, u, x, present, k);
      }
      WealthSame(t, u, holders, |holders|);
    }
  }

  /** The sender truly has the total, and every receiver has room for what it
      gets: all of it can be looked up before the send. */
  predicate InRange(t: Table, x: Transfer) {
    (FirstSelf(x, 0) == |x.amounts| ==> Sum(x, |x.amounts|) <= Balance(t, From(x))) &&
    forall i | 0 <= i < FirstSelf(x, 0) ::
      Balance(t, To(x, i)) + CreditTo(x, FirstSelf(x, 0), To(x, i)) <= MAX_AMOUNT
  }

  /** Every balance is the old one plus credits minus debits, without wrapping. */
  ghost predicate Exact(t: Table, u: Table, x: Transfer) {
    forall k: Tuple :: Balance(u, k) == Due(x, Balance(t, k), k)
  }

  lemma {:induction false} DueInRange(t: Table, x: Transfer, k: Tuple)
    requires Effective(x, true, Balance(t, From(x))) && InRange(t, x)
    ensures Wrap(Due(x, Balance(t, k), k)) == Due(x, Balance(t, k), k) && Carry(Due(x, Balance(t, k), k)) == 0
  {
    DueBounds(t, x, k);
    NoCarry(Due(x, Balance(t, k), k));
  }

  lemma {:induction false} NoCarry(v: int)
    requires -MAX_AMOUNT - 1 <= v <= MAX_AMOUNT
    ensures Wrap(v) == v && Carry(v) == 0
  {
  }

  lemma {:induction false} DueBounds(t: Table, x: Transfer, k: Tuple)
    requires FirstBad(x, 0) == |x.amounts| && InRange(t, x)
    ensures -MAX_AMOUNT - 1 <= Due(x, Balance(t, k), k) <= MAX_AMOUNT
  {
    var self := FirstSelf(x, 0);
    NoSelfCredit(x, self);
    CreditNonNegative(x, self, k);
    PositiveSum(x, |x.amounts|);
    if i :| 0 <= i < self && To(x, i) == k {
      assert Balance(t, To(x, i)) + CreditTo(x, self, To(x, i)) <= MAX_AMOUNT;
    } else {
      UnlistedCredit(x, self, k);
    }
  }

  /** An effective send is exact for everybody if and only if it stays in range. */
  lemma {:induction false} ExactIff(t: Table, u: Table, x: Transfer, present: bool)
    requires AfterSend(t, u, x, present) && Effective(x, present, Balance(t, From(x)))
    ensures Exact(t, u, x) <==> InRange(t, x)
  {
    var self := FirstSelf(x, 0);
    if InRange(t, x) {
      forall k: Tuple
        ensures Balance(u, k) == Due(x, Balance(t, k), k)
      {
        assert AfterAt(t, u, x, present, k);
        DueInRange(t, x, k);
      }
    } else {
      NoSelfCredit(x, self);
      if self == |x.amounts| && Sum(x, self) > Balance(t, From(x)) {
        assert AfterAt(t, u, x, present, From(x));
        WrapTwice(Sum(x, self), Balance(t, From(x)));
        assert Due(x, Balance(t, From(x)), From(x)) < 0 <= Balance(u, From(x));
      } else {
        var i :| 0 <= i < self && Balance(t, To(x, i)) + CreditTo(x, self, To(x, i)) > MAX_AMOUNT;
        assert To(x, i) != From(x);
        assert Due(x, Balance(t, To(x, i)), To(x, i)) > MAX_AMOUNT >= Balance(u, To(x, i));
      }
    }
  }

  lemma {:induction false} NothingLost(t: Table, x: Transfer, holders: seq<Tuple>, h: nat)
    requires Effective(x, true, Balance(t, From(x))) && InRange(t, x) && h <= |holders|
    ensures Lost(t, x, holders, h) == 0
  {
    if h > 0 {
      NothingLost(t, x, holders, h - 1);
      DueInRange(t, x, holders[h - 1]);
    }
  }

  /** In range, a send keeps the total if and only if it does not stop halfway. */
  lemma {:induction false} KeptIff(t: Table, u: Table, x: Transfer, present: bool, holders: seq<Tuple>)
    requires AfterSend(t, u, x, present) && Closed(holders, x) && InRange(t, x)
    ensures Wealth(u, holders, |holders|) == Wealth(t, holders, |holders|) <==>
            !(Effective(x, present, Balance(t, From(x))) && StopsHalfway(x))
  {
    TotalChange(t, u, x, present, holders);
    if Effective(x, present, Balance(t, From(x))) {
      NothingLost(t, x, holders, |holders|);
      PositiveSum(x, FirstSelf(x, 0));
    }
  }

  lemma {:induction false} PoolConserves(s: State, x: Transfer, holders: seq<Tuple>)
    requires Closed(holders, x)
    ensures var r := Send(s, {}, x, Pool).0;
            Wealth(r.live, holders, |holders|) == Wealth(s.live, holders, |holders|) +
              if !TooLarge(x) && Effective(x, From(x) in s.live, Balance(s.live, From(x)))
              then Created(s.live, x, holders) else 0
  {
    PoolAfter(s, x);
    var r := Send(s, {}, x, Pool).0;
    if TooLarge(x) {
      WealthSame(s.live, r.live, holders, |holders|);
    } else {
      TotalChange(s.live, r.live, x, From(x) in s.live, holders);
    }
  }

  lemma {:induction false} BlockConserves(s: State, reverted: set<Tuple>, x: Transfer, holders: seq<Tuple>)
    requires InBlock(s, reverted) && Closed(holders, x)
    ensures var r := Send(s, reverted, x, Block).0;
            Wealth(r.pow, holders, |holders|) == Wealth(s.pow, holders, |holders|) +
              if Effective(x, From(x) in s.live, Balance(s.pow, From(x))) then Created(s.pow, x, holders) else 0
  {
    BlockEffect(s, reverted, x);
    TotalChange(s.pow, Send(s, reverted, x, Block).0.pow, x, From(x) in s.live, holders);
  }

  /** A send that ends without error never stops halfway: it keeps the total if
      and only if the carries out of 64 bits cancel. */
  lemma {:induction false} DoneConserves(s: State, reverted: set<Tuple>, x: Transfer, holders: seq<Tuple>)
    requires InBlock(s, reverted) && Closed(holders, x) && Send(s, reverted, x, Block).2 == Done(false)
    ensures var r := Send(s, reverted, x, Block).0;
            Wealth(r.pow, holders, |holders|) == Wealth(s.pow, holders, |holders|) <==>
            Lost(s.pow, x, holders, |holders|) == 0
  {
    BlockConserves(s, reverted, x, holders);
    DoneIsEffective(s, reverted, x);
  }

  lemma {:induction false} DoneIsEffective(s: State, reverted: set<Tuple>, x: Transfer)
    requires InBlock(s, reverted) && Send(s, reverted, x, Block).2 == Done(false)
    ensures Effective(x, From(x) in s.live, Balance(s.pow, From(x))) && !StopsHalfway(x)
  {
    RevertKeeps(s, reverted, From(x));
  }

  /** Nothing owned, and the largest amount to two owners each and 2 to a third:
      the total wraps to 0, the send ends without error, and the two have it. */
  lemma {:induction false} WrapExample()
    ensures var x := Transfer(0, 1, [(2, MAX_AMOUNT), (3, MAX_AMOUNT), (4, 2)], 0, Owner, true, false);
            var s := State(map[Tuple(0, 1) := 0], map[Tuple(0, 1) := 0], {});
            var (r, _, out) := Send(s, {}, x, Block);
            && out == Done(false) && Balance(r.pow, Tuple(0, 1)) == 0
            && Balance(r.pow, Tuple(0, 2)) == Balance(r.pow, Tuple(0, 3)) == MAX_AMOUNT
            && !StopsHalfway(x) && !InRange(s.pow, x)
  {
    var x := Transfer(0, 1, [(2, MAX_AMOUNT), (3, MAX_AMOUNT), (4, 2)], 0, Owner, true, false);
    var s := State(map[Tuple(0, 1) := 0], map[Tuple(0, 1) := 0], {});
    WrappingTotal(x);
    NoSelfCredit(x, 3);
    assert Effective(x, true, 0) && InBlock(s, {});
    EffectiveIsDone(s, x);
    BlockShows(s, x, Tuple(0, 1), 0);
    BlockShows(s, x, Tuple(0, 2), MAX_AMOUNT);
    BlockShows(s, x, Tuple(0, 3), MAX_AMOUNT);
  }

  /** What a block of one effective send leaves to `k`. */
  lemma {:induction false} BlockShows(s: State, x: Transfer, k: Tuple, b: Amount)
    requires InBlock(s, {}) && Effective(x, From(x) in s.live, Balance(s.pow, From(x)))
    requires Wrap(Due(x, Balance(s.pow, k), k)) == b
    ensures Balance(Send(s, {}, x, Block).0.pow, k) == b
  {
    BlockEffect(s, {}, x);
    assert AfterAt(s.pow, Send(s, {}, x, Block).0.pow, x, From(x) in s.live, k);
  }

  lemma {:induction false} EffectiveIsDone(s: State, x: Transfer)
    requires InBlock(s, {}) && Effective(x, From(x) in s.live, Balance(s.pow, From(x)))
    requires FirstSelf(x, 0) == |x.amounts|
    ensures Send(s, {}, x, Block).2 == Done(false)
  {
    RevertKeeps(s, {}, From(x));
  }

  /** All of that to one owner: everything wraps back to where it was.  So a
      total can be kept by a send that is far out of range. */
  lemma {:induction false} CancelExample()
    ensures var x := Transfer(0, 1, [(2, MAX_AMOUNT), (2, MAX_AMOUNT), (2, 2)], 0, Owner, true, false);
            var s := State(map[Tuple(0, 1) := 0], map[Tuple(0, 1) := 0], {});
            var (r, _, out) := Send(s, {}, x, Block);
            out == Done(false) && SameBalances(r.pow, s.pow) && !InRange(s.pow, x)
  {
    var x := Transfer(0, 1, [(2, MAX_AMOUNT), (2, MAX_AMOUNT), (2, 2)], 0, Owner, true, false);
    var s := State(map[Tuple(0, 1) := 0], map[Tuple(0, 1) := 0], {});
    OneReceiver(x);
    assert Effective(x, true, 0) && InBlock(s, {});
    EffectiveIsDone(s, x);
    forall k: Tuple
      ensures Balance(Send(s, {}, x, Block).0.pow, k) == Balance(s.pow, k)
    {
      WrapSame(Balance(s.pow, k), if k == Tuple(0, 2) then 1 else if k == Tuple(0, 1) then -1 else 0);
      BlockShows(s, x, k, Balance(s.pow, k));
    }
  }

  lemma {:induction false} OneReceiver(x: Transfer)
    requires x.amounts == [(2, MAX_AMOUNT), (2, MAX_AMOUNT), (2, 2)] && x.sender != 2
    ensures FirstBad(x, 0) == FirstSelf(x, 0) == 3 && Sum(x, 3) == WORD
    ensures forall k: Tuple :: CreditTo(x, 3, k) == if k == Tuple(x.asset, 2) then WORD else 0
  {
    assert FirstBad(x, 2) == 3 && FirstBad(x, 1) == 3;
    assert FirstSelf(x, 2) == 3 && FirstSelf(x, 1) == 3;
    assert Sum(x, 0) == 0 && Sum(x, 1) == MAX_AMOUNT && Sum(x, 2) == 2 * MAX_AMOUNT;
    forall k: Tuple
      ensures CreditTo(x, 3, k) == if k == Tuple(x.asset, 2) then WORD else 0
    {
      assert CreditTo(x, 0, k) == 0;
      assert CreditTo(x, 1, k) == if k == Tuple(x.asset, 2) then MAX_AMOUNT else 0;
    }
  }

  /** Ten owned, three sent to another owner, then one to oneself: the other
      owner has three more and the sender still has ten. */
  lemma {:induction false} HalfwayExample()
    ensures var x := Transfer(0, 1, [(2, 3), (1, 1)], 0, Owner, true, false);
            var s := State(map[Tuple(0, 1) := 10], map[Tuple(0, 1) := 10], {});
            var (r, _, out) := Send(s, {}, x, Block);
            out == Error(1022) && Balance(r.pow, Tuple(0, 1)) == 10 && Balance(r.pow, Tuple(0, 2)) == 3
  {
    var x := Transfer(0, 1, [(2, 3), (1, 1)], 0, Owner, true, false);
    var s := State(map[Tuple(0, 1) := 10], map[Tuple(0, 1) := 10], {});
    StopsAtSelf(s, x);
  }

  lemma {:induction false} StopsAtSelf(s: State, x: Transfer)
    requires x == Transfer(0, 1, [(2, 3), (1, 1)], 0, Owner, true, false) && InBlock(s, {})
    requires From(x) in s.live && Balance(s.pow, Tuple(0, 1)) == 10 && Balance(s.pow, Tuple(0, 2)) == 0
    ensures Send(s, {}, x, Block).2 == Error(1022)
    ensures var t := Send(s, {}, x, Block).0.pow; Balance(t, Tuple(0, 1)) == 10 && Balance(t, Tuple(0, 2)) == 3
  {
    ThreeThenOne(x);
    EffectiveStops(s, x);
    BlockShows(s, x, Tuple(0, 1), 10);
    BlockShows(s, x, Tuple(0, 2), 3);
  }

  lemma {:induction false} ThreeThenOne(x: Transfer)
    requires x.amounts == [(2, 3), (1, 1)] && x.sender == 1 && x.asset == 0
    ensures FirstSelf(x, 0) == 1 && FirstBad(x, 0) == 2 && Sum(x, 2) == 4
    ensures CreditTo(x, 1, Tuple(0, 1)) == 0 && CreditTo(x, 1, Tuple(0, 2)) == 3
  {
    assert FirstSelf(x, 1) == 1 && FirstBad(x, 1) == 2;
    assert Sum(x, 0) == 0 && Sum(x, 1) == 3;
    assert CreditTo(x, 0, Tuple(0, 2)) == 0 && CreditTo(x, 0, Tuple(0, 1)) == 0;
  }

  lemma {:induction false} EffectiveStops(s: State, x: Transfer)
    requires InBlock(s, {}) && Effective(x, From(x) in s.live, Balance(s.pow, From(x)))
    requires FirstSelf(x, 0) < |x.amounts|
    ensures Send(s, {}, x, Block).2 == Error(1022)
  {
    RevertKeeps(s, {}, From(x));
  }

  // ----- a supply below 2^63 is safe

  /** A send among the holders, to others than the sender, whose true total is an
      amount. */
  predicate Plain(x: Transfer, holders: seq<Tuple>) {
    Closed(holders, x) && FirstSelf(x, 0) == |x.amounts| && Sum(x, |x.amounts|) <= MAX_AMOUNT
  }

  lemma {:induction false} PartOfWealth(t: Table, holders: seq<Tuple>, n: nat, j: nat)
    requires NonNegative(t) && j < n <= |holders|
    ensures 0 <= Balance(t, holders[j]) <= Wealth(t, holders, n)
  {
    if j < n - 1 {
      PartOfWealth(t, holders, n - 1, j);
    } else {
      WealthNonNegative(t, holders, n - 1);
    }
  }

  lemma {:induction false} WealthNonNegative(t: Table, holders: seq<Tuple>, n: nat)
    requires NonNegative(t) && n <= |holders|
    ensures Wealth(t, holders, n) >= 0
  {
    if n > 0 {
      WealthNonNegative(t, holders, n - 1);
    }
  }

  /** Two holders own no more than all. */
  lemma {:induction false} PairOfWealth(t: Table, holders: seq<Tuple>, n: nat, i: nat, j: nat)
    requires NonNegative(t) && i < j < n <= |holders|
    ensures Balance(t, holders[i]) + Balance(t, holders[j]) <= Wealth(t, holders, n)
  {
    if j < n - 1 {
      PairOfWealth(t, holders, n - 1, i, j);
    } else {
      PartOfWealth(t, holders, n - 1, i);
    }
  }

  lemma {:induction false} PlainInRange(t: Table, x: Transfer, holders: seq<Tuple>)
    requires NonNegative(t) && Plain(x, holders) && Wealth(t, holders, |holders|) <= MAX_AMOUNT
    requires Effective(x, true, Balance(t, From(x)))
    ensures InRange(t, x)
  {
    var n := |x.amounts|;
    WrapTwice(Sum(x, n), Balance(t, From(x)));
    PositiveSum(x, n);
    assert Sum(x, n) <= Balance(t, From(x));
    forall i | 0 <= i < n
      ensures Balance(t, To(x, i)) + CreditTo(x, n, To(x, i)) <= MAX_AMOUNT
    {
      CreditNonNegative(x, n, To(x, i));
      var a :| 0 <= a < |holders| && holders[a] == To(x, i);
      var b :| 0 <= b < |holders| && holders[b] == From(x);
      assert a != b;
      PairOfWealth(t, holders, |holders|, if a < b then a else b, if a < b then b else a);
    }
  }

  lemma {:induction false} PlainKeeps(t: Table, u: Table, x: Transfer, present: bool, holders: seq<Tuple>)
    requires AfterSend(t, u, x, present) && NonNegative(t)
    requires Plain(x, holders) && Wealth(t, holders, |holders|) <= MAX_AMOUNT
    ensures NonNegative(u) && Wealth(u, holders, |holders|) == Wealth(t, holders, |holders|)
    ensures Effective(x, present, Balance(t, From(x))) ==> Exact(t, u, x)
  {
    TotalChange(t, u, x, present, holders);
    NonNegativeIff(t, u, x, present);
    if Effective(x, present, Balance(t, From(x))) {
      PlainInRange(t, x, holders);
      ExactIff(t, u, x, present);
      NothingLost(t, x, holders, |holders|);
      forall i | 0 <= i < FirstSelf(x, 0)
        ensures RoomFor(t, x, i)
      {
        CreditNonNegative(x, FirstSelf(x, 0), To(x, i));
      }
    }
  }

  lemma {:induction false} BlockSupply(s: State, reverted: set<Tuple>, xs: seq<Transfer>, holders: seq<Tuple>)
    requires InBlock(s, reverted) && NonNegative(s.pow) && Wealth(s.pow, holders, |holders|) <= MAX_AMOUNT
    requires forall j | 0 <= j < |xs| :: Plain(xs[j], holders)
    ensures var r := SendBlock(s, reverted, xs);
            && InBlock(r, {}) && NonNegative(r.pow)
            && Wealth(r.pow, holders, |holders|) == Wealth(s.pow, holders, |holders|)
    decreases |xs|
  {
    if xs != [] {
      BlockEffect(s, reverted, xs[0]);
      var (r, done, _) := Send(s, reverted, xs[0], Block);
      PlainKeeps(s.pow, r.pow, xs[0], From(xs[0]) in s.live, holders);
      BlockSupply(r, done, xs[1..], holders);
    }
  }

  /** Whatever the pool does: if the proof-of-work balances start non-negative
      and together below 2^63, and the blocks hold plain sends only, then the
      supply stays the same and no balance is ever negative. */
  lemma {:induction false} SupplyKept(s: State, es: seq<Event>, holders: seq<Tuple>)
    requires InBlock(s, {}) && NonNegative(s.pow) && Wealth(s.pow, holders, |holders|) <= MAX_AMOUNT
    requires InBlocks(es, x => Plain(x, holders))
    ensures NonNegative(Run(s, es).pow)
    ensures Wealth(Run(s, es).pow, holders, |holders|) == Wealth(s.pow, holders, |holders|)
    decreases |es|
  {
    if es != [] {
      assert InBlocks(es[1..], x => Plain(x, holders));
      match es[0]
      case PoolSend(x) =>
        PoolKeepsPow(s, x);
        SupplyKept(Step(s, es[0]), es[1..], holders);
      case BlockConnected(xs) =>
        BlockSupply(s, {}, xs, holders);
        SupplyKept(Step(s, es[0]), es[1..], holders);
    }
  }

  // ----- conflicts

  /** The receivers before the sender itself. */
  function Receivers(x: Transfer): set<Tuple> {
    set i | 0 <= i < FirstSelf(x, 0) :: To(x, i)
  }

  /** The set of the first `n` receivers. */
  function FirstOf(x: Transfer, n: nat): set<Tuple>
    requires n <= |x.amounts|
  {
    set i | 0 <= i < n :: To(x, i)
  }

  lemma {:induction false} CreditMarks(s: State, x: Transfer, n: nat, overrun: bool, spread: bool, mode: Mode)
    requires n <= |x.amounts|
    ensures Credit(s, x, n, overrun, spread, mode).conflicts ==
              s.conflicts + if mode.Pool? && (spread || overrun) then FirstOf(x, n) else {}
  {
    if n > 0 {
      CreditMarks(s, x, n - 1, overrun, spread, mode);
      assert FirstOf(x, n) == FirstOf(x, n - 1) + {To(x, n - 1)};
    }
  }

  /** The amounts are looked at, and all are positive. */
  predicate Reaches(s: State, x: Transfer) {
    Admitted(x) && From(x) in s.live && FirstBad(x, 0) == |x.amounts|
  }

  /** The funds do not cover the total, in 64 bits. */
  predicate Overruns(s: State, x: Transfer) {
    Wrap(Balance(s.live, From(x)) - Sum(x, |x.amounts|)) < 0
  }

  /** A pool send marks the sender exactly on an overrun, the receivers before the
      sender itself exactly if it overran or the sender was in conflict, and
      nobody else; a send turned away marks nobody. */
  lemma {:induction false} PoolMarks(s: State, x: Transfer)
    ensures Send(s, {}, x, Pool).0.conflicts ==
              if TooLarge(x) || x.amounts == [] || !Reaches(s, x) then s.conflicts
              else s.conflicts + (if Overruns(s, x) then {From(x)} else {})
                               + (if Overruns(s, x) || From(x) in s.conflicts then Receivers(x) else {})
  {
    if !TooLarge(x) && x.amounts != [] && Reaches(s, x) {
      PaidMarks(s, x);
    }
  }

  lemma {:induction false} PaidMarks(s: State, x: Transfer)
    requires Reaches(s, x)
    ensures Pay(s, {}, x, Pool).0.conflicts ==
              s.conflicts + (if Overruns(s, x) then {From(x)} else {})
                          + (if Overruns(s, x) || From(x) in s.conflicts then Receivers(x) else {})
  {
    WrapTwice(Sum(x, |x.amounts|), s.live[From(x)]);
    var overrun, self := Overruns(s, x), FirstSelf(x, 0);
    var spread := !overrun && From(x) in s.conflicts;
    var marked := if overrun then s.(conflicts := s.conflicts + {From(x)}) else s;
    CreditMarks(marked, x, self, overrun, spread, Pool);
    assert Receivers(x) == FirstOf(x, self);
  }

  /** The tuples that a send in a block touches: the sender, and the receivers up
      to the first whose amount is not positive. */
  function Touches(s: State, x: Transfer): set<Tuple> {
    if x.claim != Owner || !x.known || From(x) !in s.live then {}
    else if x.amounts != [] && x.ranged then {From(x)}
    else
      var bad := FirstBad(x, 0);
      {From(x)} + FirstOf(x, if bad < |x.amounts| then bad + 1 else bad)
  }

  lemma {:induction false} RevertMarks(s: State, reverted: set<Tuple>, x: Transfer, n: nat)
    requires n <= |x.amounts|
    ensures var (r, done) := RevertReceivers(s, reverted, x, n);
            done == reverted + FirstOf(x, n) && r.conflicts == s.conflicts - (done - reverted)
  {
    if n > 0 {
      RevertMarks(s, reverted, x, n - 1);
      assert FirstOf(x, n) == FirstOf(x, n - 1) + {To(x, n - 1)};
      var (r, done) := RevertReceivers(s, reverted, x, n - 1);
      RevertOneMarks(s, reverted, r, done, To(x, n - 1));
    }
  }

  lemma {:induction false} RevertOneMarks(s: State, reverted: set<Tuple>, r: State, done: set<Tuple>, k: Tuple)
    requires reverted <= done && r.conflicts == s.conflicts - (done - reverted)
    ensures var (w, more) := Revert(r, done, k);
            more == done + {k} && w.conflicts == s.conflicts - (more - reverted)
  {
    if k in done {
      assert done + {k} == done;
    } else {
      assert (done + {k}) - reverted == (done - reverted) + {k};
    }
  }

  /** A send in a block reverts what it touches, and takes the marks off what is
      reverted for the first time; it marks nobody. */
  lemma {:induction false} BlockMarks(s: State, reverted: set<Tuple>, x: Transfer)
    ensures var (r, done, _) := Send(s, reverted, x, Block);
            done == reverted + Touches(s, x) && r.conflicts == s.conflicts - (done - reverted)
  {
    if x.claim == Owner && x.known && From(x) in s.live {
      RevertOneMarks(s, reverted, s, reverted, From(x));
      var (r, done) := Revert(s, reverted, From(x));
      if x.amounts == [] || !x.ranged {
        PaidUnmarks(s, reverted, r, done, x);
      }
    }
  }

  lemma {:induction false} PaidUnmarks(s: State, reverted: set<Tuple>, r: State, done: set<Tuple>, x: Transfer)
    requires From(x) in r.live && reverted <= done && r.conflicts == s.conflicts - (done - reverted)
    ensures var bad := FirstBad(x, 0);
            var (w, more, _) := Pay(r, done, x, Block);
            && more == done + FirstOf(x, if bad < |x.amounts| then bad + 1 else bad)
            && w.conflicts == s.conflicts - (more - reverted)
  {
    var bad := FirstBad(x, 0);
    var n := if bad < |x.amounts| then bad + 1 else bad;
    RevertMarks(r, done, x, n);
    var (q, more) := RevertReceivers(r, done, x, n);
    assert s.conflicts - (done - reverted) - (more - done) == s.conflicts - (more - reverted);
    if bad == |x.amounts| {
      var after := Wrap(r.live[From(x)] - Wrap(Sum(x, |x.amounts|)));
      CreditMarks(q, x, FirstSelf(x, 0), after < 0, false, Block);
    }
  }

  /** The tuples reverted when the block is connected. */
  function Reverted(s: State, reverted: set<Tuple>, xs: seq<Transfer>): set<Tuple>
    decreases |xs|
  {
    if xs == [] then reverted
    else
      var (r, done, _) := Send(s, reverted, xs[0], Block);
      Reverted(r, done, xs[1..])
  }

  lemma {:induction false} SendBlockMarks(s: State, reverted: set<Tuple>, xs: seq<Transfer>)
    ensures reverted <= Reverted(s, reverted, xs)
    ensures SendBlock(s, reverted, xs).conflicts == s.conflicts - (Reverted(s, reverted, xs) - reverted)
    decreases |xs|
  {
    if xs != [] {
      BlockMarks(s, reverted, xs[0]);
      var (r, done, _) := Send(s, reverted, xs[0], Block);
      SendBlockMarks(r, done, xs[1..]);
      var all := Reverted(r, done, xs[1..]);
      assert s.conflicts - (done - reverted) - (all - done) == s.conflicts - (all - reverted);
    }
  }

  /** The event reverts the tuple. */
  predicate RevertedBy(s: State, e: Event, k: Tuple) {
    e.BlockConnected? && k in Reverted(s, {}, e.xs)
  }

  /** Some block of the run reverts the tuple. */
  predicate RevertedIn(s: State, es: seq<Event>, k: Tuple)
    decreases |es|
  {
    es != [] && (RevertedBy(s, es[0], k) || RevertedIn(Step(s, es[0]), es[1..], k))
  }

  /** Only a block takes a mark off, and it takes off exactly those it reverts. */
  lemma {:induction false} StepMarks(s: State, e: Event, k: Tuple)
    ensures k in s.conflicts ==> (k in Step(s, e).conflicts <==> !RevertedBy(s, e, k))
    ensures RevertedBy(s, e, k) ==> k !in Step(s, e).conflicts
  {
    match e
    case PoolSend(x) => PoolMarks(s, x);
    case BlockConnected(xs) => SendBlockMarks(s, {}, xs);
  }

  /** A tuple in conflict stays so over every run until a block reverts it. */
  lemma {:induction false} ConflictStays(s: State, es: seq<Event>, k: Tuple)
    requires k in s.conflicts && !RevertedIn(s, es, k)
    ensures k in Run(s, es).conflicts
    decreases |es|
  {
    if es != [] {
      StepMarks(s, es[0], k);
      ConflictStays(Step(s, es[0]), es[1..], k);
    }
  }

  // ----- outcomes

  /** The tests a send has to pass, in their order, each with the error of those that
      fail it. */
  predicate Fails(s: State, x: Transfer, mode: Mode, test: nat) {
    match test
    case 0 => mode.Pool? && x.amounts == []
    case 1 => mode.Pool? && |x.amounts| > 250
    case 2 => mode.Pool? && x.memo > 128
    case 3 => x.claim == AliasIsAddress
    case 4 => From(x) !in s.live
    case 5 => x.claim == NotOwner(true)
    case 6 => x.claim == NotOwner(false)
    case 7 => !x.known
    case 8 => x.amounts != [] && x.ranged
    case 9 => exists i | 0 <= i < |x.amounts| :: x.amounts[i].1 <= 0
    case 10 => exists i | 0 <= i < |x.amounts| :: x.amounts[i].0 == x.sender
    case _ => false
  }

  function CodeOf(test: nat): int {
    match test
    case 0 => 1004
    case 1 => 1005
    case 2 => 1006
    case 3 => 1016
    case 4 => 1015
    case 5 => 1017
    case 6 => 1015
    case 7 => 1016
    case 8 => 1018
    case 9 => 1020
    case _ => 1022
  }

  /** The send ends with the error of the first test it fails.  If it passes all, it
      is done, with an overrun exactly if the funds do not cover the total: the live
      ones in the pool, those of the proof-of-work table in a block. */
  lemma {:induction false} SendOutcome(s: State, reverted: set<Tuple>, x: Transfer, mode: Mode) returns (test: nat)
    requires mode.Block? ==> InBlock(s, reverted)
    ensures test <= 11 && forall t: nat | t < test :: !Fails(s, x, mode, t)
    ensures var out := Send(s, reverted, x, mode).2;
            var funds := if mode.Pool? then Balance(s.live, From(x)) else Balance(s.pow, From(x));
            if test < 11 then Fails(s, x, mode, test) && out == Error(CodeOf(test))
            else out == Done(Wrap(funds - Sum(x, |x.amounts|)) < 0)
  {
    test := FirstFail(s, x, mode, 11);
    if test >= 9 {
      var (r, done) := if mode.Block? then Revert(s, reverted, From(x)) else (s, reverted);
      assert forall t: nat | t < 9 :: !Fails(s, x, mode, t);
      Passed(s, x, mode);
      PayOutcome(s, reverted, x, mode, r, done, test);
    } else {
      Turned(s, reverted, x, mode, test);
    }
  }

  lemma {:induction false} Turned(s: State, reverted: set<Tuple>, x: Transfer, mode: Mode, test: nat)
    requires test < 9 && Fails(s, x, mode, test) && forall t: nat | t < test :: !Fails(s, x, mode, t)
    ensures Send(s, reverted, x, mode).2 == Error(CodeOf(test))
  {
    assert test > 0 ==> !Fails(s, x, mode, 0);
    assert test > 1 ==> !Fails(s, x, mode, 1);
    assert test > 2 ==> !Fails(s, x, mode, 2);
    assert test > 3 ==> !Fails(s, x, mode, 3);
    assert test > 4 ==> !Fails(s, x, mode, 4);
    assert test > 5 ==> !Fails(s, x, mode, 5);
    assert test > 6 ==> !Fails(s, x, mode, 6);
    assert test > 7 ==> !Fails(s, x, mode, 7);
  }

  lemma {:induction false} Passed(s: State, x: Transfer, mode: Mode)
    requires forall t: nat | t < 9 :: !Fails(s, x, mode, t)
    ensures Admitted(x) && From(x) in s.live
    ensures mode.Pool? ==> 0 < |x.amounts| <= 250 && x.memo <= 128
  {
    assert !Fails(s, x, mode, 0) && !Fails(s, x, mode, 1) && !Fails(s, x, mode, 2) && !Fails(s, x, mode, 3);
    assert !Fails(s, x, mode, 4) && !Fails(s, x, mode, 5) && !Fails(s, x, mode, 6) && !Fails(s, x, mode, 7);
    assert !Fails(s, x, mode, 8);
  }

  lemma {:induction false} PayOutcome(
    s: State, reverted: set<Tuple>, x: Transfer, mode: Mode, r: State, done: set<Tuple>, test: nat)
    requires Admitted(x) && From(x) in s.live && (mode.Pool? ==> 0 < |x.amounts| <= 250 && x.memo <= 128)
    requires mode.Block? ==> InBlock(s, reverted)
    requires (r, done) == if mode.Block? then Revert(s, reverted, From(x)) else (s, reverted)
    requires 9 <= test <= 11 && (test < 11 ==> Fails(s, x, mode, test)) &&
             forall t: nat | t < test :: !Fails(s, x, mode, t)
    ensures var out := Send(s, reverted, x, mode).2;
            var funds := if mode.Pool? then Balance(s.live, From(x)) else Balance(s.pow, From(x));
            if test < 11 then out == Error(CodeOf(test)) else out == Done(Wrap(funds - Sum(x, |x.amounts|)) < 0)
  {
    assert Send(s, reverted, x, mode) == Pay(r, done, x, mode);
    assert Balance(r.live, From(x)) == if mode.Pool? then Balance(s.live, From(x)) else Balance(s.pow, From(x));
    WrapTwice(Sum(x, |x.amounts|), r.live[From(x)]);
    assert test > 9 ==> !Fails(s, x, mode, 9);
    assert test > 10 ==> !Fails(s, x, mode, 10);
    assert (FirstBad(x, 0) < |x.amounts|) == Fails(s, x, mode, 9);
    assert (FirstSelf(x, 0) < |x.amounts|) == Fails(s, x, mode, 10);
  }

  lemma {:induction false} FirstFail(s: State, x: Transfer, mode: Mode, n: nat) returns (t: nat)
    ensures t <= n && (forall u: nat | u < t :: !Fails(s, x, mode, u)) && (t < n ==> Fails(s, x, mode, t))
  {
    if n == 0 {
      t := 0;
    } else {
      t := FirstFail(s, x, mode, n - 1);
      if t == n - 1 && !Fails(s, x, mode, t) {
        t := n;
      }
    }
  }
}
