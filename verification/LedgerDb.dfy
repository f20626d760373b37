/**
  The amount-send path of CheckAssetAllocationInputs as code that reads and
  writes the allocation tables (src/assetallocation.cpp,
  src/assetallocation.h).  Each method is proved against module `Ledger`.
 */
module LedgerDb {
  import opened Common
  import opened Ledger

  class AllocationDb {
    var assetallocationi: Table
    var assetallocationp: Table
    var assetAllocationConflicts: set<Tuple>

    ghost function Model(): State
      reads this
    {
      State(assetallocationi, assetallocationp, assetAllocationConflicts)
    }

    method WriteAssetAllocation(k: Tuple, balance: Amount, fJustCheck: bool)
      modifies this`assetallocationi, this`assetallocationp
      ensures Model() == Write(old(Model()), k, balance, if fJustCheck then Pool else Block)
    {
      assetallocationi := assetallocationi[k := balance];
      if !fJustCheck {
        assetallocationp := assetallocationp[k := balance];
      }
    }

    method RevertAssetAllocation(k: Tuple, reverted: set<Tuple>) returns (done: set<Tuple>)
      modifies this
      ensures (Model(), done) == Revert(old(Model()), reverted, k)
    {
      if k in reverted {
        return reverted;
      }
      var balance := if k in assetallocationp then assetallocationp[k] else 0;
      WriteAssetAllocation(k, balance, false);
      assetAllocationConflicts := assetAllocationConflicts - {k};
      return reverted + {k};
    }

    /** Reverts receivers in a block and adds up the amounts; stops at the first
        amount that is not positive. */
    method CheckReceivers(x: Transfer, fRevert: bool, reverted: set<Tuple>)
      returns (done: set<Tuple>, nTotal: Amount, ok: bool)
      modifies this
      ensures ok == (FirstBad(x, 0) == |x.amounts|) && (ok ==> nTotal == Wrap(Sum(x, |x.amounts|)))
      ensures var bad := FirstBad(x, 0);
              var touched := if bad < |x.amounts| then bad + 1 else bad;
              (Model(), done) ==
                if fRevert then RevertReceivers(old(Model()), reverted, x, touched) else (old(Model()), reverted)
    {
      done, nTotal := reverted, 0;
      var i := 0;
      while i < |x.amounts|
        invariant 0 <= i <= |x.amounts| && FirstBad(x, 0) == FirstBad(x, i) && nTotal == Wrap(Sum(x, i))
        invariant (Model(), done) ==
                    if fRevert then RevertReceivers(old(Model()), reverted, x, i) else (old(Model()), reverted)
      {
        if fRevert {
          done := RevertAssetAllocation(To(x, i), done);
        }
        WrapTwice(Sum(x, i), x.amounts[i].1);
        nTotal := Wrap(nTotal as int + x.amounts[i].1 as int);
        if x.amounts[i].1 <= 0 {
          return done, nTotal, false;
        }
        i := i + 1;
      }
      return done, nTotal, true;
    }

    /** Credits the receivers up to the sender itself, and tells whether the
        sender was met. */
    method CreditReceivers(x: Transfer, overrun: bool, spread: bool, fJustCheck: bool)
      returns (balance: Amount, selfSend: bool)
      requires From(x) in assetallocationi
      modifies this
      ensures selfSend == (FirstSelf(x, 0) < |x.amounts|)
      ensures Model() == Credit(old(Model()), x, FirstSelf(x, 0), overrun, spread, if fJustCheck then Pool else Block)
      ensures !selfSend ==>
        balance == if overrun then old(assetallocationi[From(x)])
                   else Wrap(old(assetallocationi[From(x)]) - Sum(x, |x.amounts|))
    {
      ghost var mode := if fJustCheck then Pool else Block;
      balance := assetallocationi[From(x)];
      var i := 0;
      while i < |x.amounts|
        invariant 0 <= i <= |x.amounts| && FirstSelf(x, 0) == FirstSelf(x, i)
        invariant Model() == Credit(old(Model()), x, i, overrun, spread, mode)
        invariant balance == if overrun then old(assetallocationi[From(x)])
                             else Wrap(old(assetallocationi[From(x)]) - Sum(x, i))
      {
        if x.amounts[i].0 == x.sender {
          return balance, true;
        }
        CreditReceiver(x, i, overrun, spread, fJustCheck);
        if !overrun {
          WrapTwice(old(assetallocationi[From(x)]) - Sum(x, i), 0 - x.amounts[i].1 as int);
          balance := Wrap(balance as int - x.amounts[i].1 as int);
        }
        i := i + 1;
      }
      return balance, false;
    }

    /** One receiver: marked where the sender is in conflict, then written. */
    method CreditReceiver(x: Transfer, i: nat, overrun: bool, spread: bool, fJustCheck: bool)
      requires i < |x.amounts|
      modifies this
      ensures Model() == CreditOne(old(Model()), x, i, overrun, spread, if fJustCheck then Pool else Block)
    {
      var k := To(x, i);
      if fJustCheck && (spread || overrun) {
        assetAllocationConflicts := assetAllocationConflicts + {k};
      }
      var receiver := if k in assetallocationi then assetallocationi[k] else 0;
      if !overrun {
        receiver := Wrap(receiver as int + x.amounts[i].1 as int);
      }
      WriteAssetAllocation(k, receiver, fJustCheck);
    }

    /** Whether the funds are overrun, and whether the receivers of a conflicting
        sender are to be marked. */
    method JudgeFunds(x: Transfer, before: Amount, nTotal: Amount, fJustCheck: bool)
      returns (overrun: bool, spread: bool)
      modifies this`assetAllocationConflicts
      ensures overrun == (Wrap(before as int - nTotal as int) < 0)
      ensures spread == (fJustCheck && !overrun && From(x) in old(assetAllocationConflicts))
      ensures assetAllocationConflicts ==
              if fJustCheck && overrun then old(assetAllocationConflicts) + {From(x)} else old(assetAllocationConflicts)
    {
      overrun, spread := false, false;
      if Wrap(before as int - nTotal as int) < 0 {
        overrun := true;
        if fJustCheck {
          assetAllocationConflicts := assetAllocationConflicts + {From(x)};
        }
      } else if fJustCheck {
        spread := From(x) in assetAllocationConflicts;
      }
    }

    method SendAmounts(x: Transfer, fJustCheck: bool, reverted: set<Tuple>)
      returns (done: set<Tuple>, out: Outcome)
      requires From(x) in assetallocationi && (!fJustCheck ==> From(x) in reverted)
      modifies this
      ensures (Model(), done, out) == Pay(old(Model()), reverted, x, if fJustCheck then Pool else Block)
    {
      ghost var m := Model();
      var before := assetallocationi[From(x)];
      var nTotal, ok;
      done, nTotal, ok := CheckReceivers(x, !fJustCheck, reverted);
      if !ok {
        return done, Error(1020);
      }
      assert From(x) in assetallocationi && assetallocationi[From(x)] == before by {
        SenderStands(m, reverted, x, |x.amounts|);
      }
      var overrun, spread := JudgeFunds(x, before, nTotal, fJustCheck);
      WrapTwice(Sum(x, |x.amounts|), before);
      var balance, selfSend := CreditReceivers(x, overrun, spread, fJustCheck);
      if selfSend {
        return done, Error(1022);
      }
      WriteAssetAllocation(From(x), balance, fJustCheck);
      return done, Done(overrun);
    }

    method CheckAssetAllocationInputs(x: Transfer, fJustCheck: bool, reverted: set<Tuple>)
      returns (done: set<Tuple>, out: Outcome)
      modifies this
      ensures (Model(), done, out) == Send(old(Model()), reverted, x, if fJustCheck then Pool else Block)
    {
      done := reverted;
      if fJustCheck {
        if |x.amounts| == 0 {
          return done, Error(1004);
        }
        if |x.amounts| > MAX_RECEIVERS {
          return done, Error(1005);
        }
        if x.memo > MAX_MEMO_LENGTH {
          return done, Error(1006);
        }
      }
      if x.claim.AliasIsAddress? {
        return done, Error(1016);
      }
      if From(x) !in assetallocationi {
        return done, Error(1015);
      }
      if x.claim.NotOwner? {
        return done, Error(if x.claim.viaAlias then 1017 else 1015);
      }
      if !x.known {
        return done, Error(1016);
      }
      if !fJustCheck {
        RevertPresent(Model(), reverted, From(x));
        done := RevertAssetAllocation(From(x), done);
      }
      if |x.amounts| > 0 && x.ranged {
        return done, Error(1018);
      }
      done, out := SendAmounts(x, fJustCheck, done);
    }
  }

  lemma {:induction false} RevertPresent(s: State, reverted: set<Tuple>, k: Tuple)
    requires k in s.live
    ensures var (r, done) := Revert(s, reverted, k); k in r.live && k in done
  {
  }

  /** Reverting receivers does not move a sender that was reverted before. */
  lemma {:induction false} SenderStands(s: State, reverted: set<Tuple>, x: Transfer, n: nat)
    requires From(x) in s.live && n <= |x.amounts|
    ensures From(x) in reverted ==>
              var (r, done) := RevertReceivers(s, reverted, x, n);
              From(x) in done && From(x) in r.live && r.live[From(x)] == s.live[From(x)]
  {
    if n > 0 {
      SenderStands(s, reverted, x, n - 1);
    }
  }
}
