/**
  PartiallyDownloadedBlock (src/blockencodings.cpp).  The mempool, the extra
  transactions, the limit on the number of transactions, the bucket-size test of
  the hash table and CheckBlock are parameters.
 */
module PartialBlocks {
  import opened Common
  import opened CompactBlocks

  /** The bucket-size test lets everything through. */
  ghost predicate NeverCrowded(crowded: (map<int, nat>, int) -> bool) {
    forall t, s :: !crowded(t, s)
  }

  datatype Verdict = Passes | Corrupt | Fails

  class PartialBlock {
    var headerNull: bool
    var available: seq<Slot>
    var prefilledCount: nat
    var mempoolCount: int

    constructor ()
      ensures headerNull && available == [] && prefilledCount == 0 && mempoolCount == 0
    {
      headerNull, available, prefilledCount, mempoolCount := true, [], 0, 0;
    }

    /** Either the message is refused as a whole, or every slot holds a
        transaction that belongs to it, or nothing. */
    method InitData(m: Message, limit: nat, crowded: (map<int, nat>, int) -> bool,
                    shortId: int -> int, pool: seq<Offer>, extra: seq<Offer>)
      returns (st: Status, ghost table: map<int, nat>, ghost have: seq<bool>, ghost k: nat, ghost l: nat)
      requires headerNull && available == [] && mempoolCount == 0
      requires AllFit(m, |m.prefilled|) ==> m.shortIds == [] || |m.prefilled| <= MAX16
      modifies this
      ensures st == Invalid <==>
        m.headerNull || (m.shortIds == [] && m.prefilled == []) || m.Count() > limit || !AllFit(m, |m.prefilled|)
      ensures st != CheckBlockFailed
      ensures st == Failed ==> available == Placed(m, |m.prefilled|)
      ensures st == Ok ==> Distinct(m.shortIds, |m.shortIds|) && !headerNull
      ensures st == Failed && NeverCrowded(crowded) ==> !Distinct(m.shortIds, |m.shortIds|)
      ensures st == Ok ==> Assigned(m.shortIds, Truncated(FreeSlots(Placed(m, |m.prefilled|), m.Count())), table)
      ensures st == Ok && m.Count() <= MAX16 + 1 ==>
        Assigned(m.shortIds, FreeSlots(Placed(m, |m.prefilled|), m.Count()), table) &&
        ScanOk(Placed(m, |m.prefilled|), Scan(available, have, mempoolCount), table,
               KnownOf(shortId, pool) + KnownOf(shortId, extra))
      ensures st == Ok && m.Count() <= MAX16 + 1 ==>
        Served(m.shortIds, shortId, pool, extra, table, available)
      ensures st == Ok ==>
        k <= |pool| && l <= |extra| && ScanFits(Scan(Placed(m, |m.prefilled|), Unmarked(m.Count()), 0), table) &&
        Scan(available, have, mempoolCount) ==
          Scanned(shortId, pool, k, extra, l, table, Scan(Placed(m, |m.prefilled|), Unmarked(m.Count()), 0))
    {
      table, have, k, l := map[], [], 0, 0;
      if m.headerNull || (m.shortIds == [] && m.prefilled == []) || m.Count() > limit {
        return Invalid, table, have, k, l;
      }
      headerNull := m.headerNull;
      var ok := PlacePrefilled(m);
      if !ok {
        return Invalid, table, have, k, l;
      }
      FreeCount(m, |m.prefilled|);
      ghost var base := available;
      var found, slots := AssignSlots(m.shortIds, available, crowded);
      if !found || |slots| != |m.shortIds| {
        return Failed, table, have, k, l;
      }
      table := slots;
      SlotsFit(m.shortIds, available, slots);
      have, k, l := ScanBoth(slots, shortId, pool, extra);
      if |base| <= MAX16 + 1 {
        NotTruncated(base);
        var start := Scan(base, Unmarked(|base|), 0);
        ScannedOk(m.shortIds, base, shortId, pool, k, extra, l, slots, start);
        AllServed(m.shortIds, base, shortId, pool, k, extra, l, slots, start);
      }
      return Ok, table, have, k, l;
    }

    /** The first loop; it stops at the first transaction that does not fit. */
    method PlacePrefilled(m: Message) returns (ok: bool)
      requires available == []
      modifies this`available, this`prefilledCount
      ensures ok == AllFit(m, |m.prefilled|) && available == Placed(m, FitCount(m, 0))
      ensures ok ==> FitCount(m, 0) == |m.prefilled| && prefilledCount == |m.prefilled|
    {
      available := Blank(m.Count());
      var last := -1;
      var i := 0;
      while i < |m.prefilled|
        invariant 0 <= i <= |m.prefilled| && AllFit(m, i) && FitCount(m, 0) == FitCount(m, i)
        invariant last == Position(m.prefilled, i) && available == Placed(m, i)
      {
        if m.prefilled[i].tx.isNull {
          return false;
        }
        last := last + m.prefilled[i].index + 1;
        if last > MAX16 || last > |m.shortIds| + i {
          return false;
        }
        assert Fits(m, i);
        available := available[last := Full(m.prefilled[i].tx)];
        i := i + 1;
      }
      prefilledCount := |m.prefilled|;
      return true;
    }

    /** Both scans, the pool first. */
    method ScanBoth(table: map<int, nat>, shortId: int -> int, pool: seq<Offer>, extra: seq<Offer>)
      returns (ghost have: seq<bool>, ghost k: nat, ghost l: nat)
      requires ScanFits(Scan(available, Unmarked(|available|), 0), table) && mempoolCount == 0
      modifies this`available, this`mempoolCount
      ensures k <= |pool| && l <= |extra| && ScanFits(Scan(old(available), Unmarked(|old(available)|), 0), table)
      ensures Scan(available, have, mempoolCount) ==
              Scanned(shortId, pool, k, extra, l, table, Scan(old(available), Unmarked(|old(available)|), 0))
      ensures Stopped(shortId, pool, k, extra, l, table, Scan(old(available), Unmarked(|old(available)|), 0))
    {
      var none := Unmarked(|available|);
      var h;
      h, k := ScanOffers(none, table, shortId, pool, false);
      h, l := ScanOffers(h, table, shortId, extra, true);
      have := h;
    }

    /** One scan; it ends early once every short id has its transaction. */
    method ScanOffers(have0: seq<bool>, table: map<int, nat>, shortId: int -> int, offers: seq<Offer>, extra: bool)
      returns (have: seq<bool>, ghost n: nat)
      requires ScanFits(Scan(available, have0, mempoolCount), table)
      modifies this`available, this`mempoolCount
      ensures n <= |offers| && (n == |offers| || mempoolCount == |table|)
      ensures Scan(available, have, mempoolCount) ==
              ScanList(shortId, offers, n, table, Scan(old(available), have0, old(mempoolCount)), extra)
    {
      have := have0;
      ghost var start := Scan(available, have, mempoolCount);
      n := 0;
      var i := 0;
      while i < |offers|
        invariant 0 <= i == n <= |offers|
        invariant Scan(available, have, mempoolCount) == ScanList(shortId, offers, i, table, start, extra)
      {
        have := Take(have, table, shortId(offers[i].hash), offers[i].tx, extra);
        i, n := i + 1, n + 1;
        if mempoolCount == |table| {
          break;
        }
      }
    }

    /** One transaction on offer. */
    method Take(have0: seq<bool>, table: map<int, nat>, s: int, tx: Tx, extra: bool) returns (have: seq<bool>)
      requires ScanFits(Scan(available, have0, mempoolCount), table)
      modifies this`available, this`mempoolCount
      ensures Scan(available, have, mempoolCount) ==
              OfferOne(Scan(old(available), have0, old(mempoolCount)), table, s, tx, extra)
    {
      have := have0;
      if s in table {
        var p := table[s];
        if !have[p] {
          available := available[p := Full(tx)];
          have := have[p := true];
          mempoolCount := mempoolCount + 1;
        } else if available[p].Full? && (!extra || available[p].tx.hash != tx.hash) {
          available := available[p := Empty];
          mempoolCount := mempoolCount - 1;
        }
      }
    }

    method IsTxAvailable(index: nat) returns (r: bool)
      requires !headerNull && index < |available|
      ensures r <==> index !in FreeSlots(available, |available|)
    {
      FreeSorted(available, |available|);
      return available[index].Full?;
    }

    /** The block, if the missing transactions are neither too few nor too many. */
    method FillBlock(missing: seq<Tx>, check: seq<Tx> -> Verdict) returns (st: Status, vtx: seq<Tx>)
      requires !headerNull
      modifies this`headerNull, this`available
      ensures |missing| == |FreeSlots(old(available), |old(available)|)| ==>
        vtx == Assemble(old(available), missing, |old(available)|) &&
        st == (match check(vtx) case Passes => Ok case Corrupt => Failed case Fails => CheckBlockFailed)
      ensures |missing| != |FreeSlots(old(available), |old(available)|)| ==> st == Invalid
      ensures |missing| >= |FreeSlots(old(available), |old(available)|)| ==> headerNull && available == []
      ensures |missing| < |FreeSlots(old(available), |old(available)|)| ==>
        !headerNull && available == MovedOut(old(available), FreeSlots(old(available), |old(available)|)[|missing|])
    {
      vtx := [];
      var offset := 0;
      ghost var a := available;
      for i := 0 to |available|
        invariant available == MovedOut(a, i) && offset == |FreeSlots(a, i)| <= |missing|
        invariant vtx == Assemble(a, missing, i) && !headerNull
      {
        FreePrefix(a, i + 1, |a|);
        assert available[i] == a[i];
        if available[i].Empty? {
          if |missing| <= offset {
            assert FreeSlots(a, i + 1)[offset] == i;
            return Invalid, vtx;
          }
          vtx := vtx + [missing[offset]];
          offset := offset + 1;
        } else {
          vtx := vtx + [available[i].tx];
          available := available[i := Empty];
        }
        assert available == MovedOut(a, i + 1);
      }
      headerNull := true;
      available := [];
      if |missing| != offset {
        return Invalid, vtx;
      }
      match check(vtx) {
        case Passes => return Ok, vtx;
        case Corrupt => return Failed, vtx;
        case Fails => return CheckBlockFailed, vtx;
      }
    }
  }

  function Unmarked(n: nat): (r: seq<bool>)
    ensures |r| == n && forall i | 0 <= i < n :: !r[i]
  {
    seq(n, _ => false)
  }

  /** `k` offers from the pool, then `l` from the extra list. */
  function Scanned(shortId: int -> int, pool: seq<Offer>, k: nat, extra: seq<Offer>, l: nat, table: map<int, nat>,
                   start: Scan): Scan
    requires k <= |pool| && l <= |extra| && ScanFits(start, table)
  {
    ScanList(shortId, extra, l, table, ScanList(shortId, pool, k, table, start, false), true)
  }

  /** Each scan went to the end of its list or until every short id was served. */
  predicate Stopped(shortId: int -> int, pool: seq<Offer>, k: nat, extra: seq<Offer>, l: nat, table: map<int, nat>,
                    start: Scan)
    requires k <= |pool| && l <= |extra| && ScanFits(start, table)
  {
    && (k == |pool| || ScanList(shortId, pool, k, table, start, false).count == |table|)
    && (l == |extra| || Scanned(shortId, pool, k, extra, l, table, start).count == |table|)
  }

  lemma {:induction false} SlotsFit(ids: seq<int>, avail: seq<Slot>, table: map<int, nat>)
    requires |ids| == |FreeSlots(avail, |avail|)| == |table|
    requires TableOf(ids, Truncated(FreeSlots(avail, |avail|)), |ids|, table)
    ensures Assigned(ids, Truncated(FreeSlots(avail, |avail|)), table) && Distinct(ids, |ids|)
    ensures ScanFits(Scan(avail, Unmarked(|avail|), 0), table)
  {
    var free := Truncated(FreeSlots(avail, |avail|));
    TableAssigns(ids, free, table);
    forall s | s in table
      ensures table[s] < |avail|
    {
      var i := RankOf(ids, free, table, s);
      assert free[i] <= FreeSlots(avail, |avail|)[i];
    }
  }

  lemma {:induction false} ScannedOk(
    ids: seq<int>, base: seq<Slot>, shortId: int -> int, pool: seq<Offer>, k: nat, extra: seq<Offer>, l: nat,
    table: map<int, nat>, start: Scan)
    requires Assigned(ids, FreeSlots(base, |base|), table) && k <= |pool| && l <= |extra|
    requires start.avail == base && |start.have| == |base| && start.count == 0 && ScanFits(start, table)
    ensures ScanOk(base, Scanned(shortId, pool, k, extra, l, table, start), table,
                   KnownOf(shortId, pool) + KnownOf(shortId, extra))
  {
    var known := KnownOf(shortId, pool) + KnownOf(shortId, extra);
    ScanStart(ids, base, start.have, table, known);
    AssignedInjective(ids, base, table);
    ScanKeeps(base, shortId, pool, k, table, start, false, known);
    ScanKeeps(base, shortId, extra, l, table, ScanList(shortId, pool, k, table, start, false), true, known);
  }

  /** A short id on offer about which there is no doubt is served. */
  lemma {:induction false} UndisputedFilled(
    ids: seq<int>, base: seq<Slot>, shortId: int -> int, pool: seq<Offer>, k: nat, extra: seq<Offer>, l: nat,
    table: map<int, nat>, start: Scan, s: int)
    requires Assigned(ids, FreeSlots(base, |base|), table) && |table| == |FreeSlots(base, |base|)| && s in ids
    requires k <= |pool| && l <= |extra| && start == Scan(base, Unmarked(|base|), 0) && ScanFits(start, table)
    requires Stopped(shortId, pool, k, extra, l, table, start)
    requires Offered(shortId, pool, extra, s) && Undisputed(shortId, pool, extra, s)
    ensures s in table && Scanned(shortId, pool, k, extra, l, table, start).avail[table[s]].Full?
  {
    AssignedInjective(ids, base, table);
    PoolExact(shortId, pool, k, table, start, s);
    HitPrefix(shortId, pool, k, |pool|, s);
    HitPrefix(shortId, extra, l, |extra|, s);
    var first := ScanList(shortId, pool, k, table, start, false);
    ExtraExact(shortId, extra, l, table, first, s);
    if Hits(shortId, pool, k, s) == 1 {
      PoolFills(shortId, pool, k, table, start, s);
    } else {
      NotInPool(ids, base, shortId, pool, k, table, start, s);
      if l < |extra| {
        ScannedOk(ids, base, shortId, pool, k, extra, l, table, start);
        AllTaken(base, Scanned(shortId, pool, k, extra, l, table, start), table,
                 KnownOf(shortId, pool) + KnownOf(shortId, extra), table[s]);
      }
    }
  }

  /** Every short id on offer about which there is no doubt has its transaction. */
  ghost predicate Served(ids: seq<int>, shortId: int -> int, pool: seq<Offer>, extra: seq<Offer>,
                         table: map<int, nat>, avail: seq<Slot>) {
    forall s | s in ids && Offered(shortId, pool, extra, s) && Undisputed(shortId, pool, extra, s) ::
      s in table && table[s] < |avail| && avail[table[s]].Full?
  }

  lemma {:induction false} AllServed(
    ids: seq<int>, base: seq<Slot>, shortId: int -> int, pool: seq<Offer>, k: nat, extra: seq<Offer>, l: nat,
    table: map<int, nat>, start: Scan)
    requires Assigned(ids, FreeSlots(base, |base|), table) && |table| == |FreeSlots(base, |base|)|
    requires k <= |pool| && l <= |extra| && start == Scan(base, Unmarked(|base|), 0) && ScanFits(start, table)
    requires Stopped(shortId, pool, k, extra, l, table, start)
    ensures Served(ids, shortId, pool, extra, table, Scanned(shortId, pool, k, extra, l, table, start).avail)
  {
    forall s | s in ids && Offered(shortId, pool, extra, s) && Undisputed(shortId, pool, extra, s)
      ensures s in table && Scanned(shortId, pool, k, extra, l, table, start).avail[table[s]].Full?
    {
      UndisputedFilled(ids, base, shortId, pool, k, extra, l, table, start, s);
    }
  }

  /** A slot still empty after the pool: the scan went through all of it. */
  lemma {:induction false} NotInPool(
    ids: seq<int>, base: seq<Slot>, shortId: int -> int, pool: seq<Offer>, k: nat, table: map<int, nat>, start: Scan,
    s: int)
    requires Assigned(ids, FreeSlots(base, |base|), table) && |table| == |FreeSlots(base, |base|)| && s in ids
    requires k <= |pool| && start == Scan(base, Unmarked(|base|), 0) && ScanFits(start, table) && s in table
    requires ScanList(shortId, pool, k, table, start, false).avail[table[s]].Empty?
    requires k == |pool| || ScanList(shortId, pool, k, table, start, false).count == |table|
    requires Hits(shortId, pool, k, s) == 0
    ensures k == |pool| && FirstHit(shortId, pool, |pool|, s) == |pool|
  {
    NoHit(shortId, pool, k, s);
    if k < |pool| {
      var known := KnownOf(shortId, pool);
      ScanStart(ids, base, start.have, table, known);
      AssignedInjective(ids, base, table);
      ScanKeeps(base, shortId, pool, k, table, start, false, known);
      AllTaken(base, ScanList(shortId, pool, k, table, start, false), table, known, table[s]);
    }
  }

  /** The empty slot at `i + offset` is the free slot of rank `i`. */
  lemma {:induction false} NextFree(avail: seq<Slot>, i: nat, pos: nat)
    requires pos < |avail| && |FreeSlots(avail, pos)| == i && avail[pos].Empty?
    ensures |FreeSlots(avail, pos + 1)| == i + 1 && i < |FreeSlots(avail, |avail|)|
    ensures FreeSlots(avail, |avail|)[i] == pos
  {
    FreePrefix(avail, pos + 1, |avail|);
    assert FreeSlots(avail, pos + 1)[i] == pos;
  }

  /** The second loop of InitData: short ids get the free slots in order, and the
      scan for the next one never leaves the slots. */
  method AssignSlots(ids: seq<int>, avail: seq<Slot>, crowded: (map<int, nat>, int) -> bool)
    returns (ok: bool, table: map<int, nat>)
    requires |ids| == |FreeSlots(avail, |avail|)| && (ids == [] || |avail| - |ids| <= MAX16)
    ensures NeverCrowded(crowded) ==> ok
    ensures ok ==> TableOf(ids, Truncated(FreeSlots(avail, |avail|)), |ids|, table)
  {
    table := map[];
    ghost var free := Truncated(FreeSlots(avail, |avail|));
    var offset := 0;
    for i := 0 to |ids|
      invariant 0 <= offset && i + offset <= |avail| && |FreeSlots(avail, i + offset)| == i
      invariant TableOf(ids, free, i, table)
    {
      offset := SkipFull(avail, i, offset);
      NextFree(avail, i, i + offset);
      TableGrows(ids, free, i, table);
      table := table[ids[i] := (i + offset) % (MAX16 + 1)];
      var id := ids[i];
      if crowded(table, id) {
        return false, table;
      }
    }
    return true, table;
  }

  /** Steps over the slots that are taken. */
  method SkipFull(avail: seq<Slot>, i: nat, offset0: nat) returns (offset: nat)
    requires i < |FreeSlots(avail, |avail|)| && |avail| - |FreeSlots(avail, |avail|)| <= MAX16
    requires i + offset0 <= |avail| && |FreeSlots(avail, i + offset0)| == i
    ensures i + offset < |avail| && |FreeSlots(avail, i + offset)| == i && avail[i + offset].Empty?
  {
    offset := offset0;
    while avail[i + offset].Full?
      invariant i + offset < |avail| && |FreeSlots(avail, i + offset)| == i
      decreases |avail| - offset
    {
      assert |FreeSlots(avail, i + offset + 1)| == i;
      assert i + offset + 1 < |avail|;
      FullMonotone(avail, i + offset + 1, |avail|);
      offset := (offset + 1) % (MAX16 + 1);
    }
  }
}
