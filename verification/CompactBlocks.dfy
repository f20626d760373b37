/**
  Compact blocks (src/blockencodings.cpp, src/blockencodings.h): a block sent as
  a few whole transactions and the short ids of the others, put together from
  the memory pool and from transactions asked for afterwards.

  The short id of a transaction hash, a keyed 48-bit hash in the source, is a
  parameter `shortId`.
 */
module CompactBlocks {
  import opened Common

  datatype Tx = Tx(hash: int, isNull: bool)

  datatype Slot = Empty | Full(tx: Tx)

  datatype Prefilled = Prefilled(index: nat, tx: Tx)

  /** A transaction on offer, from the pool or from the extra list. */
  datatype Offer = Offer(hash: int, tx: Tx)

  datatype Message = Message(headerNull: bool, shortIds: seq<int>, prefilled: seq<Prefilled>) {
    function Count(): nat { |shortIds| + |prefilled| }
  }

  datatype Status = Ok | Invalid | Failed | CheckBlockFailed

  // ----- the prefilled transactions

  /** Where the last of the first `n` prefilled transactions goes: each index
      counts from the one before. */
  function Position(p: seq<Prefilled>, n: nat): (r: int)
    requires n <= |p|
    ensures r >= n - 1
  {
    if n == 0 then -1 else Position(p, n - 1) + p[n - 1].index + 1
  }

  /** What is checked of prefilled transaction `i`. */
  predicate Fits(m: Message, i: nat)
    requires i < |m.prefilled|
  {
    !m.prefilled[i].tx.isNull &&
    Position(m.prefilled, i + 1) <= MAX16 &&
    Position(m.prefilled, i + 1) <= |m.shortIds| + i
  }

  predicate AllFit(m: Message, n: nat)
    requires n <= |m.prefilled|
  {
    forall i | 0 <= i < n :: Fits(m, i)
  }

  /** The number of prefilled transactions before the first that does not fit. */
  function FitCount(m: Message, k: nat): (r: nat)
    requires k <= |m.prefilled| && AllFit(m, k)
    ensures r <= |m.prefilled| && AllFit(m, r) && (r < |m.prefilled| ==> !Fits(m, r))
    decreases |m.prefilled| - k
  {
    if k == |m.prefilled| || !Fits(m, k) then k else FitCount(m, k + 1)
  }

  lemma {:induction false} PositionsGrow(p: seq<Prefilled>, i: nat, j: nat)
    requires i < j <= |p|
    ensures Position(p, i) < Position(p, j)
  {
    if i < j - 1 {
      PositionsGrow(p, i, j - 1);
    }
  }

  /** The checks made one by one come to this: no transaction is null, and the last
      one lies within the block and within 16 bits. */
  lemma {:induction false} AllFitIff(m: Message)
    ensures AllFit(m, |m.prefilled|) <==>
            && (forall i | 0 <= i < |m.prefilled| :: !m.prefilled[i].tx.isNull)
            && Position(m.prefilled, |m.prefilled|) < m.Count()
            && Position(m.prefilled, |m.prefilled|) <= 65535
  {
    var n := |m.prefilled|;
    if AllFit(m, n) {
      assert n > 0 ==> Fits(m, n - 1);
      forall i | 0 <= i < n
        ensures !m.prefilled[i].tx.isNull
      {
        assert Fits(m, i);
      }
    } else {
      var i :| 0 <= i < n && !Fits(m, i);
      PositionsApart(m.prefilled, i + 1, n);
    }
  }

  function Blank(n: nat): (r: seq<Slot>)
    ensures |r| == n && forall h | 0 <= h < n :: r[h] == Empty
  {
    seq(n, _ => Empty)
  }

  /** The slots after the first `n` prefilled transactions. */
  function Placed(m: Message, n: nat): (r: seq<Slot>)
    requires n <= |m.prefilled| && AllFit(m, n)
    ensures |r| == m.Count()
  {
    if n == 0 then Blank(m.Count())
    else
      assert Fits(m, n - 1);
      Placed(m, n - 1)[Position(m.prefilled, n) := Full(m.prefilled[n - 1].tx)]
  }

  lemma {:induction false} PlacedAbove(m: Message, n: nat, h: nat)
    requires n <= |m.prefilled| && AllFit(m, n) && Position(m.prefilled, n) < h < m.Count()
    ensures Placed(m, n)[h] == Empty
  {
    if n > 0 {
      assert Fits(m, n - 1);
      PositionsGrow(m.prefilled, n - 1, n);
      PlacedAbove(m, n - 1, h);
    }
  }

  function PlaceOf(p: seq<Prefilled>, i: nat): (r: nat)
    requires i < |p|
  {
    Position(p, i + 1)
  }

  /** Every prefilled transaction stands at its position, and nothing elsewhere. */
  lemma {:induction false} PlacedAt(m: Message, n: nat, h: nat)
    requires n <= |m.prefilled| && AllFit(m, n) && h < m.Count()
    ensures Placed(m, n)[h].Full? <==> exists i | 0 <= i < n :: PlaceOf(m.prefilled, i) == h
    ensures forall i | 0 <= i < n && PlaceOf(m.prefilled, i) == h :: Placed(m, n)[h] == Full(m.prefilled[i].tx)
  {
    if n > 0 {
      assert Fits(m, n - 1);
      PlacedAt(m, n - 1, h);
      forall i | 0 <= i < n - 1
        ensures PlaceOf(m.prefilled, i) < PlaceOf(m.prefilled, n - 1)
      {
        PositionsGrow(m.prefilled, i + 1, n);
      }
    }
  }

  // ----- the free slots

  /** The empty slots among the first `n`, in order. */
  function FreeSlots(a: seq<Slot>, n: nat): (r: seq<nat>)
    requires n <= |a|
    ensures |r| <= n && forall i | 0 <= i < |r| :: r[i] < n
  {
    if n == 0 then [] else FreeSlots(a, n - 1) + (if a[n - 1].Empty? then [n - 1] else [])
  }

  lemma {:induction false} FreePrefix(a: seq<Slot>, m: nat, n: nat)
    requires m <= n <= |a|
    ensures FreeSlots(a, m) <= FreeSlots(a, n)
  {
    if m < n {
      FreePrefix(a, m, n - 1);
    }
  }

  /** Filling an empty slot takes just this one off the list. */
  lemma {:induction false} FreeFill(a: seq<Slot>, k: nat, t: Tx, n: nat)
    requires n <= |a| && k < |a| && a[k].Empty?
    ensures |FreeSlots(a[k := Full(t)], n)| == |FreeSlots(a, n)| - if k < n then 1 else 0
  {
    if n > 0 {
      FreeFill(a, k, t, n - 1);
    }
  }

  /** The list holds the empty slots and no others, in ascending order. */
  lemma {:induction false} FreeSorted(a: seq<Slot>, n: nat)
    requires n <= |a|
    ensures forall i | 0 <= i < |FreeSlots(a, n)| :: a[FreeSlots(a, n)[i]].Empty?
    ensures forall i, j | 0 <= i < j < |FreeSlots(a, n)| :: FreeSlots(a, n)[i] < FreeSlots(a, n)[j]
    ensures forall h | 0 <= h < n && a[h].Empty? :: h in FreeSlots(a, n)
  {
    if n > 0 {
      FreeSorted(a, n - 1);
    }
  }

  /** Exactly as many slots stay free as there are short ids. */
  lemma {:induction false} FreeCount(m: Message, n: nat)
    requires n <= |m.prefilled| && AllFit(m, n)
    ensures |FreeSlots(Placed(m, n), m.Count())| == m.Count() - n
  {
    if n == 0 {
      FreeOfBlank(m.Count(), m.Count());
    } else {
      FreeCount(m, n - 1);
      assert Fits(m, n - 1);
      PositionsGrow(m.prefilled, n - 1, n);
      PlacedAbove(m, n - 1, Position(m.prefilled, n));
      FreeFill(Placed(m, n - 1), Position(m.prefilled, n), m.prefilled[n - 1].tx, m.Count());
    }
  }

  lemma {:induction false} FreeOfBlank(size: nat, n: nat)
    requires n <= size
    ensures |FreeSlots(Blank(size), n)| == n
  {
    if n > 0 {
      FreeOfBlank(size, n - 1);
    }
  }

  // ----- short ids and their slots

  predicate Distinct(ids: seq<int>, n: nat)
    requires n <= |ids|
  {
    forall i, j | 0 <= i < j < n :: ids[i] != ids[j]
  }

  /** The table after the first `n` short ids; a later one takes the place of an
      equal earlier one. */
  ghost predicate TableOf(ids: seq<int>, free: seq<nat>, n: nat, table: map<int, nat>)
    requires n <= |ids| && n <= |free|
  {
    |table| <= n && (|table| == n <==> Distinct(ids, n)) &&
    (Distinct(ids, n) ==> Ranked(ids, free, n, table)) &&
    (forall s :: s in table <==> Occurs(ids, n, s))
  }

  ghost predicate Occurs(ids: seq<int>, n: nat, s: int)
    requires n <= |ids|
  {
    exists i | 0 <= i < n :: ids[i] == s
  }

  predicate Ranked(ids: seq<int>, free: seq<nat>, n: nat, table: map<int, nat>)
    requires n <= |ids| && n <= |free|
  {
    forall i | 0 <= i < n :: ids[i] in table && table[ids[i]] == free[i]
  }

  lemma {:induction false} TableGrows(ids: seq<int>, free: seq<nat>, n: nat, table: map<int, nat>)
    requires n < |ids| && n < |free| && TableOf(ids, free, n, table)
    ensures TableOf(ids, free, n + 1, table[ids[n] := free[n]])
  {
    var table' := table[ids[n] := free[n]];
    assert Occurs(ids, n + 1, ids[n]) by {
      assert ids[n] == ids[n];
    }
    forall s
      ensures s in table' <==> Occurs(ids, n + 1, s)
    {
      if s != ids[n] {
        assert Occurs(ids, n + 1, s) <==> Occurs(ids, n, s);
      }
    }
    DistinctGrows(ids, n);
    OneMoreKey(table, ids[n], free[n]);
    if ids[n] !in table && Distinct(ids, n) {
      forall i | 0 <= i < n
        ensures ids[i] in table' && table'[ids[i]] == free[i]
      {
        assert Occurs(ids, n, ids[i]);
      }
    }
  }

  lemma {:induction false} OneMoreKey(table: map<int, nat>, s: int, p: nat)
    ensures |table[s := p]| == |table| + if s in table then 0 else 1
  {
    assert table[s := p].Keys == table.Keys + {s};
  }

  lemma {:induction false} DistinctGrows(ids: seq<int>, n: nat)
    requires n < |ids|
    ensures Distinct(ids, n + 1) <==> Distinct(ids, n) && !Occurs(ids, n, ids[n])
  {
    if Distinct(ids, n) && !Occurs(ids, n, ids[n]) {
      forall i, j | 0 <= i < j < n + 1
        ensures ids[i] != ids[j]
      {
      }
    }
  }

  lemma {:induction false} TableAssigns(ids: seq<int>, free: seq<nat>, table: map<int, nat>)
    requires |ids| == |free| && TableOf(ids, free, |ids|, table) && |table| == |ids|
    ensures Assigned(ids, free, table) && Distinct(ids, |ids|)
  {
    forall s | s in table
      ensures s in ids
    {
      assert Occurs(ids, |ids|, s);
    }
  }

  /** Every short id names the free slot of its own rank. */
  predicate Assigned(ids: seq<int>, free: seq<nat>, table: map<int, nat>)
  {
    |ids| <= |free| &&
    (forall i | 0 <= i < |ids| :: ids[i] in table && table[ids[i]] == free[i]) &&
    (forall s | s in table :: s in ids)
  }

  /** Positions are kept in 16 bits.  They come out right for every short id
      exactly when the message counts at most 65536 transactions. */
  lemma {:induction false} SixteenBits(m: Message)
    requires AllFit(m, |m.prefilled|)
    ensures
      (forall i | 0 <= i < |m.shortIds| :: FreeAt(m, i) % (MAX16 + 1) == FreeAt(m, i)) <==> m.Count() <= MAX16 + 1
  {
    var n := |m.prefilled|;
    var a := Placed(m, n);
    var free := FreeSlots(a, m.Count());
    FreeCount(m, n);
    if m.Count() > MAX16 + 1 {
      var last := m.Count() - 1;
      if n > 0 {
        assert Fits(m, n - 1);
      }
      PlacedAbove(m, n, last);
      FreeSorted(a, m.Count());
      assert last in free;
      var i :| 0 <= i < |free| && free[i] == last;
      assert FreeAt(m, i) == last;
      assert last % (MAX16 + 1) != last;
    } else {
      forall i | 0 <= i < |m.shortIds|
        ensures FreeAt(m, i) % (MAX16 + 1) == FreeAt(m, i)
      {
        assert FreeAt(m, i) == free[i];
      }
    }
  }

  /** Slot numbers as the table keeps them. */
  function Truncated(free: seq<nat>): (r: seq<nat>)
    ensures |r| == |free| && forall i | 0 <= i < |r| :: r[i] == free[i] % (MAX16 + 1)
  {
    seq(|free|, i requires 0 <= i < |free| => free[i] % (MAX16 + 1))
  }

  lemma {:induction false} NotTruncated(a: seq<Slot>)
    requires |a| <= MAX16 + 1
    ensures Truncated(FreeSlots(a, |a|)) == FreeSlots(a, |a|)
  {
  }

  /** A slot number that does not fit lands on a prefilled slot or on one that
      belongs to another short id. */
  lemma {:induction false} TruncatedClash(m: Message, i: nat)
    requires AllFit(m, |m.prefilled|) && i < |m.shortIds| && FreeAt(m, i) > MAX16
    ensures var t := FreeAt(m, i) % (MAX16 + 1);
            && t < m.Count()
            && (Placed(m, |m.prefilled|)[t].Full? || exists j | 0 <= j < |m.shortIds| :: j != i && FreeAt(m, j) == t)
  {
    var a := Placed(m, |m.prefilled|);
    var free := FreeSlots(a, m.Count());
    FreeCount(m, |m.prefilled|);
    FreeSorted(a, m.Count());
    var t := FreeAt(m, i) % (MAX16 + 1);
    assert free[i] == FreeAt(m, i) < m.Count();
    if a[t].Empty? {
      assert t in free;
      var j :| 0 <= j < |free| && free[j] == t;
      assert FreeAt(m, j) == t;
    }
  }

  /** The slot that the search with 16-bit offset looks at in its turn `k`. */
  function Visit(i: nat, offset: nat, k: nat): nat {
    i + (offset + k) % (MAX16 + 1)
  }

  /** The search comes to an empty slot. */
  ghost predicate Ends(a: seq<Slot>, i: nat, offset: nat) {
    exists k: nat :: Visit(i, offset, k) < |a| && a[Visit(i, offset, k)].Empty?
  }

  /** Where 65536 positions fit, they are the numbers from 0 to 65535. */
  lemma {:induction false} AllPositions(m: Message, i: nat)
    requires AllFit(m, |m.prefilled|) && i < |m.prefilled| && |m.prefilled| > MAX16
    ensures PlaceOf(m.prefilled, i) == i
  {
    assert Fits(m, i) && Fits(m, MAX16);
    PositionsApart(m.prefilled, i + 1, MAX16 + 1);
  }

  lemma {:induction false} PositionsApart(p: seq<Prefilled>, i: nat, j: nat)
    requires i <= |p| && j <= |p|
    ensures i <= j ==> Position(p, i) + (j - i) <= Position(p, j)
    decreases j
  {
    if i < j {
      PositionsApart(p, i, j - 1);
    }
  }

  /** The first search ends if and only if not all of the slots from 0 to 65535
      are prefilled: then the offset wraps and the search goes round for ever. */
  lemma {:induction false} SearchEndsIff(m: Message)
    requires AllFit(m, |m.prefilled|) && m.shortIds != []
    ensures Ends(Placed(m, |m.prefilled|), 0, 0) <==> |m.prefilled| <= MAX16
  {
    if |m.prefilled| <= MAX16 {
      SearchEnds(m);
    } else {
      forall k: nat
        ensures Placed(m, |m.prefilled|)[Visit(0, 0, k)].Full?
      {
        SearchCircles(m, k);
      }
    }
  }

  lemma {:induction false} SearchEnds(m: Message)
    requires AllFit(m, |m.prefilled|) && m.shortIds != [] && |m.prefilled| <= MAX16
    ensures Ends(Placed(m, |m.prefilled|), 0, 0)
  {
    var a := Placed(m, |m.prefilled|);
    FreeCount(m, |m.prefilled|);
    FreePair(a, 0, 0);
    var f := FreeSlots(a, |a|)[0];
    FirstFree(a, |a|);
    FullMonotone(a, f, |a|);
    assert Visit(0, 0, f) == f;
  }

  lemma {:induction false} SearchCircles(m: Message, k: nat)
    requires AllFit(m, |m.prefilled|) && |m.prefilled| > MAX16
    ensures Visit(0, 0, k) < m.Count() && Placed(m, |m.prefilled|)[Visit(0, 0, k)].Full?
  {
    var h := Visit(0, 0, k);
    AllPositions(m, h);
    PlacedAt(m, |m.prefilled|, h);
  }

  /** The slots before the first empty one are all filled. */
  lemma {:induction false} FirstFree(a: seq<Slot>, n: nat)
    requires n <= |a| && FreeSlots(a, n) != []
    ensures FreeSlots(a, FreeSlots(a, n)[0]) == []
  {
    if FreeSlots(a, n - 1) != [] {
      FirstFree(a, n - 1);
    }
  }

  /** Filled slots only get more. */
  lemma {:induction false} FullMonotone(a: seq<Slot>, m: nat, n: nat)
    requires m <= n <= |a|
    ensures m - |FreeSlots(a, m)| <= n - |FreeSlots(a, n)|
  {
    if m < n {
      FullMonotone(a, m, n - 1);
    }
  }

  /** The slot that the short id of rank `i` stands for. */
  function FreeAt(m: Message, i: nat): nat
    requires AllFit(m, |m.prefilled|)
  {
    var free := FreeSlots(Placed(m, |m.prefilled|), m.Count());
    if i < |free| then free[i] else 0
  }

  // ----- taking transactions from the pool

  /** `count` is the number of slots filled so far; `have` marks the slots for
      which some transaction was seen. */
  datatype Scan = Scan(avail: seq<Slot>, have: seq<bool>, count: int)

  predicate ScanFits(sc: Scan, table: map<int, nat>) {
    |sc.have| == |sc.avail| && forall s | s in table :: table[s] < |sc.avail|
  }

  /** A transaction for a slot: the first fills it, another one empties it for
      good.  From the extra list, the very transaction that fills the slot does
      no harm. */
  function OfferOne(sc: Scan, table: map<int, nat>, s: int, tx: Tx, extra: bool): (r: Scan)
    requires ScanFits(sc, table)
    ensures ScanFits(r, table) && |r.avail| == |sc.avail|
  {
    if s !in table then sc
    else
      var p := table[s];
      if !sc.have[p] then Scan(sc.avail[p := Full(tx)], sc.have[p := true], sc.count + 1)
      else if sc.avail[p].Full? && (extra ==> sc.avail[p].tx.hash != tx.hash) then
        Scan(sc.avail[p := Empty], sc.have, sc.count - 1)
      else sc
  }

  /** A filled slot holds an offered transaction with the right short id; what is
      not marked is empty; slots without a short id are as they were. */
  ghost predicate ScanOk(base: seq<Slot>, sc: Scan, table: map<int, nat>, known: set<(int, Tx)>) {
    ScanFits(sc, table) && |base| == |sc.avail| &&
    (forall s | s in table :: SlotOk(sc, table, known, s)) &&
    (forall h | 0 <= h < |base| && h !in table.Values :: sc.avail[h] == base[h]) &&
    sc.count + |FreeSlots(sc.avail, |sc.avail|)| == |FreeSlots(base, |base|)|
  }

  ghost predicate SlotOk(sc: Scan, table: map<int, nat>, known: set<(int, Tx)>, s: int)
    requires ScanFits(sc, table) && s in table
  {
    var p := table[s];
    (sc.avail[p].Full? ==> sc.have[p] && (s, sc.avail[p].tx) in known)
  }

  predicate Injective(table: map<int, nat>) {
    forall s, t | s in table && t in table && s != t :: table[s] != table[t]
  }

  lemma {:induction false} OfferKeeps(
    base: seq<Slot>, sc: Scan, table: map<int, nat>, known: set<(int, Tx)>, s: int, tx: Tx, extra: bool)
    requires ScanOk(base, sc, table, known) && Injective(table) && (s, tx) in known
    ensures ScanOk(base, OfferOne(sc, table, s, tx, extra), table, known)
  {
    var r := OfferOne(sc, table, s, tx, extra);
    if s in table && r != sc {
      var p := table[s];
      assert SlotOk(sc, table, known, s);
      if !sc.have[p] {
        FreeFill(sc.avail, p, tx, |sc.avail|);
      } else {
        var t := sc.avail[p].tx;
        assert r.avail[p := Full(t)] == sc.avail;
        FreeFill(r.avail, p, t, |sc.avail|);
      }
      forall z | z in table
        ensures SlotOk(r, table, known, z)
      {
        assert SlotOk(sc, table, known, z);
      }
      assert p in table.Values;
    }
  }

  /** The first `n` of a list of offers, taken in order. */
  function ScanList(shortId: int -> int, offers: seq<Offer>, n: nat, table: map<int, nat>, start: Scan, extra: bool):
    (r: Scan)
    requires n <= |offers| && ScanFits(start, table)
    ensures ScanFits(r, table) && |r.avail| == |start.avail|
  {
    if n == 0 then start
    else
      OfferOne(ScanList(shortId, offers, n - 1, table, start, extra), table,
               shortId(offers[n - 1].hash), offers[n - 1].tx, extra)
  }

  lemma {:induction false} ScanKeeps(base: seq<Slot>, shortId: int -> int, offers: seq<Offer>, n: nat,
                                     table: map<int, nat>, start: Scan, extra: bool, known: set<(int, Tx)>)
    requires n <= |offers| && ScanOk(base, start, table, known) && Injective(table)
    requires KnownOf(shortId, offers) <= known
    ensures ScanOk(base, ScanList(shortId, offers, n, table, start, extra), table, known)
  {
    if n > 0 {
      ScanKeeps(base, shortId, offers, n - 1, table, start, extra, known);
      var o := offers[n - 1];
      assert (shortId(o.hash), o.tx) in KnownOf(shortId, offers);
      var sofar := ScanList(shortId, offers, n - 1, table, start, extra);
      OfferKeeps(base, sofar, table, known, shortId(o.hash), o.tx, extra);
    }
  }

  /** How many of the first `n` on offer have the short id `s`. */
  function Hits(shortId: int -> int, pool: seq<Offer>, n: nat, s: int): nat
    requires n <= |pool|
  {
    if n == 0 then 0 else Hits(shortId, pool, n - 1, s) + if shortId(pool[n - 1].hash) == s then 1 else 0
  }

  /** A slot is filled exactly when one transaction in the pool matches: two and
      more are taken for a collision. */
  lemma {:induction false} PoolExact(shortId: int -> int, pool: seq<Offer>, n: nat, table: map<int, nat>, start: Scan,
                                     s: int)
    requires n <= |pool| && ScanFits(start, table) && Injective(table) && s in table
    requires !start.have[table[s]] && start.avail[table[s]].Empty?
    ensures
      var r, k := ScanList(shortId, pool, n, table, start, false), Hits(shortId, pool, n, s);
      (r.have[table[s]] <==> k > 0) && (r.avail[table[s]].Full? <==> k == 1)
  {
    if n > 0 {
      PoolExact(shortId, pool, n - 1, table, start, s);
      var sofar := ScanList(shortId, pool, n - 1, table, start, false);
      OfferAt(sofar, table, s, shortId(pool[n - 1].hash), pool[n - 1].tx, false);
    }
  }

  /** All of the first `n` on offer with the short id `s` have the hash `hash`. */
  predicate AllHash(shortId: int -> int, offers: seq<Offer>, n: nat, s: int, hash: int)
    requires n <= |offers|
  {
    forall i | 0 <= i < n :: shortId(offers[i].hash) == s ==> offers[i].tx.hash == hash
  }

  /** The first on offer with the short id `s`, among the first `n`, or `n`. */
  function FirstHit(shortId: int -> int, offers: seq<Offer>, n: nat, s: int): (i: nat)
    requires n <= |offers|
    ensures i <= n && (i < n ==> shortId(offers[i].hash) == s)
  {
    if n == 0 then 0
    else
      var i := FirstHit(shortId, offers, n - 1, s);
      if i < n - 1 || shortId(offers[n - 1].hash) == s then i else n
  }

  /** What the extra list makes of a slot. */
  function AfterExtra(shortId: int -> int, extra: seq<Offer>, n: nat, s: int, slot: Slot, had: bool): Slot
    requires n <= |extra|
  {
    var i := FirstHit(shortId, extra, n, s);
    if i == n then slot
    else if had then
      if slot.Full? && AllHash(shortId, extra, n, s, slot.tx.hash) then slot else Empty
    else
      if AllHash(shortId, extra, n, s, extra[i].tx.hash) then Full(extra[i].tx) else Empty
  }

  /** After the scan of the extra list, a slot for which nothing was seen before is
      filled exactly if there are offers for it and all carry the same hash, with
      the first of them; a filled slot stays exactly if all offers for it carry
      its hash; and a slot that was emptied stays empty. */
  lemma {:induction false} ExtraExact(
    shortId: int -> int, extra: seq<Offer>, n: nat, table: map<int, nat>, start: Scan, s: int)
    requires n <= |extra| && ScanFits(start, table) && Injective(table) && s in table
    requires !start.have[table[s]] ==> start.avail[table[s]].Empty?
    ensures
      var p, r := table[s], ScanList(shortId, extra, n, table, start, true);
      && (r.have[p] <==> start.have[p] || FirstHit(shortId, extra, n, s) < n)
      && r.avail[p] == AfterExtra(shortId, extra, n, s, start.avail[p], start.have[p])
  {
    if n > 0 {
      ExtraExact(shortId, extra, n - 1, table, start, s);
      var sofar := ScanList(shortId, extra, n - 1, table, start, true);
      OfferAt(sofar, table, s, shortId(extra[n - 1].hash), extra[n - 1].tx, true);
      ExtraNext(shortId, extra, n - 1, s, start.avail[table[s]], start.have[table[s]]);
    }
  }

  /** What one offer makes of a slot. */
  function AfterOffer(slot: Slot, had: bool, tx: Tx, extra: bool): Slot {
    if !had then Full(tx) else if slot.Full? && extra && slot.tx.hash == tx.hash then slot else Empty
  }

  /** An offer concerns the slot of its short id and no other. */
  lemma {:induction false} OfferAt(sc: Scan, table: map<int, nat>, s: int, z: int, tx: Tx, extra: bool)
    requires ScanFits(sc, table) && Injective(table) && s in table
    ensures var p, r := table[s], OfferOne(sc, table, z, tx, extra);
            && r.avail[p] == (if z == s then AfterOffer(sc.avail[p], sc.have[p], tx, extra) else sc.avail[p])
            && r.have[p] == (z == s || sc.have[p])
  {
    assert z in table && z != s ==> table[z] != table[s];
  }

  lemma {:induction false} ExtraNext(shortId: int -> int, extra: seq<Offer>, n: nat, s: int, slot: Slot, had: bool)
    requires n < |extra| && (!had ==> slot.Empty?)
    ensures var before := AfterExtra(shortId, extra, n, s, slot, had);
            AfterExtra(shortId, extra, n + 1, s, slot, had) ==
              if shortId(extra[n].hash) != s then before
              else AfterOffer(before, had || FirstHit(shortId, extra, n, s) < n, extra[n].tx, true)
  {
    NoneBefore(shortId, extra, n, s);
  }

  lemma {:induction false} NoneBefore(shortId: int -> int, offers: seq<Offer>, n: nat, s: int)
    requires n <= |offers|
    ensures forall i | 0 <= i < FirstHit(shortId, offers, n, s) :: shortId(offers[i].hash) != s
  {
    if n > 0 {
      NoneBefore(shortId, offers, n - 1, s);
    }
  }

  /** The first scan leaves the one transaction that matches. */
  lemma {:induction false} PoolFills(
    shortId: int -> int, pool: seq<Offer>, n: nat, table: map<int, nat>, start: Scan, s: int)
    requires n <= |pool| && ScanFits(start, table) && Injective(table) && s in table
    requires !start.have[table[s]] && start.avail[table[s]].Empty? && Hits(shortId, pool, n, s) == 1
    ensures FirstHit(shortId, pool, n, s) < n
    ensures ScanList(shortId, pool, n, table, start, false).avail[table[s]] ==
              Full(pool[FirstHit(shortId, pool, n, s)].tx)
  {
    var z := shortId(pool[n - 1].hash);
    OfferAt(ScanList(shortId, pool, n - 1, table, start, false), table, s, z, pool[n - 1].tx, false);
    if z == s {
      NoHit(shortId, pool, n - 1, s);
      PoolExact(shortId, pool, n - 1, table, start, s);
    } else {
      PoolFills(shortId, pool, n - 1, table, start, s);
    }
  }

  lemma {:induction false} NoHit(shortId: int -> int, offers: seq<Offer>, n: nat, s: int)
    requires n <= |offers|
    ensures Hits(shortId, offers, n, s) == 0 <==> FirstHit(shortId, offers, n, s) == n
  {
    if n > 0 {
      NoHit(shortId, offers, n - 1, s);
    }
  }

  /** There is no doubt about a short id: the pool offers at most one transaction
      for it, and the extra list none with another hash. */
  predicate Undisputed(shortId: int -> int, pool: seq<Offer>, extra: seq<Offer>, s: int) {
    var i, j := FirstHit(shortId, pool, |pool|, s), FirstHit(shortId, extra, |extra|, s);
    && Hits(shortId, pool, |pool|, s) <= 1
    && (i < |pool| ==> AllHash(shortId, extra, |extra|, s, pool[i].tx.hash))
    && (j < |extra| ==> AllHash(shortId, extra, |extra|, s, extra[j].tx.hash))
  }

  predicate Offered(shortId: int -> int, pool: seq<Offer>, extra: seq<Offer>, s: int) {
    FirstHit(shortId, pool, |pool|, s) < |pool| || FirstHit(shortId, extra, |extra|, s) < |extra|
  }

  lemma {:induction false} HitPrefix(shortId: int -> int, offers: seq<Offer>, k: nat, n: nat, s: int)
    requires k <= n <= |offers|
    ensures Hits(shortId, offers, k, s) <= Hits(shortId, offers, n, s)
    ensures FirstHit(shortId, offers, k, s) < k ==>
              FirstHit(shortId, offers, n, s) == FirstHit(shortId, offers, k, s)
  {
    if k < n {
      HitPrefix(shortId, offers, k, n - 1, s);
    }
  }

  /** As many transactions taken as there are short ids: no slot is empty. */
  lemma {:induction false} AllTaken(base: seq<Slot>, sc: Scan, table: map<int, nat>, known: set<(int, Tx)>, p: nat)
    requires ScanOk(base, sc, table, known) && sc.count == |FreeSlots(base, |base|)| && p < |sc.avail|
    ensures sc.avail[p].Full?
  {
    NoneFree(sc.avail, p);
  }

  lemma {:induction false} NoneFree(a: seq<Slot>, p: nat)
    requires FreeSlots(a, |a|) == [] && p < |a|
    ensures a[p].Full?
  {
    FreeSorted(a, |a|);
  }

  /** What the offers amount to: pairs of short id and transaction. */
  ghost function KnownOf(shortId: int -> int, offers: seq<Offer>): set<(int, Tx)> {
    set i | 0 <= i < |offers| :: (shortId(offers[i].hash), offers[i].tx)
  }

  lemma {:induction false} AssignedInjective(ids: seq<int>, a: seq<Slot>, table: map<int, nat>)
    requires Assigned(ids, FreeSlots(a, |a|), table)
    ensures Injective(table)
    ensures forall s | s in table :: table[s] < |a| && a[table[s]].Empty?
  {
    forall s | s in table
      ensures table[s] < |a| && a[table[s]].Empty?
    {
      var i := RankOf(ids, FreeSlots(a, |a|), table, s);
      FreePair(a, i, i);
    }
    forall s, t | s in table && t in table && s != t
      ensures table[s] != table[t]
    {
      var i := RankOf(ids, FreeSlots(a, |a|), table, s);
      var j := RankOf(ids, FreeSlots(a, |a|), table, t);
      FreePair(a, i, j);
    }
  }

  lemma {:induction false} FreePair(a: seq<Slot>, i: nat, j: nat)
    requires i < |FreeSlots(a, |a|)| && j < |FreeSlots(a, |a|)|
    ensures a[FreeSlots(a, |a|)[i]].Empty?
    ensures i != j ==> FreeSlots(a, |a|)[i] != FreeSlots(a, |a|)[j]
  {
    FreeSorted(a, |a|);
  }

  lemma {:induction false} RankOf(ids: seq<int>, free: seq<nat>, table: map<int, nat>, s: int) returns (i: nat)
    requires Assigned(ids, free, table) && s in table
    ensures i < |ids| && ids[i] == s && table[s] == free[i]
  {
    i :| 0 <= i < |ids| && ids[i] == s;
  }

  /** Before the scan nothing is marked. */
  lemma {:induction false} ScanStart(
    ids: seq<int>, base: seq<Slot>, have: seq<bool>, table: map<int, nat>, known: set<(int, Tx)>)
    requires Assigned(ids, FreeSlots(base, |base|), table)
    requires |have| == |base|
    ensures ScanOk(base, Scan(base, have, 0), table, known)
  {
    AssignedInjective(ids, base, table);
    var sc := Scan(base, have, 0);
    forall s | s in table
      ensures SlotOk(sc, table, known, s)
    {
    }
  }

  // ----- putting the block together

  /** The message is one of the block `vtx`: prefilled transactions at their
      positions, short ids of the others in order. */
  predicate Encodes(m: Message, vtx: seq<Tx>, shortId: int -> int) {
    |vtx| == m.Count() && AllFit(m, |m.prefilled|) &&
    (forall i | 0 <= i < |m.prefilled| ::
       PlaceOf(m.prefilled, i) < |vtx| && vtx[PlaceOf(m.prefilled, i)] == m.prefilled[i].tx) &&
    (forall i | 0 <= i < |m.shortIds| :: FreeAt(m, i) < |vtx| && m.shortIds[i] == shortId(vtx[FreeAt(m, i)].hash))
  }

  /** The sender's message: the first transaction whole, the others by short id. */
  function Compress(vtx: seq<Tx>, shortId: int -> int): Message
    requires |vtx| > 0
  {
    Message(false, seq(|vtx| - 1, i requires 0 <= i < |vtx| - 1 => shortId(vtx[i + 1].hash)), [Prefilled(0, vtx[0])])
  }

  lemma {:induction false} CompressEncodes(vtx: seq<Tx>, shortId: int -> int)
    requires |vtx| > 0 && !vtx[0].isNull
    ensures Encodes(Compress(vtx, shortId), vtx, shortId)
    ensures var m := Compress(vtx, shortId); !m.headerNull && m.prefilled != [] && m.Count() == |vtx|
  {
    var m := Compress(vtx, shortId);
    assert Position(m.prefilled, 1) == 0;
    assert Fits(m, 0);
    var a := Placed(m, 1);
    assert a == Placed(m, 0)[0 := Full(vtx[0])];
    forall i | 0 <= i < |m.shortIds|
      ensures FreeAt(m, i) == i + 1
    {
      FreeAfterFirst(a, |a|);
    }
  }

  lemma {:induction false} FreeAfterFirst(a: seq<Slot>, n: nat)
    requires 0 < n <= |a| && a[0].Full? && forall h | 0 < h < |a| :: a[h].Empty?
    ensures |FreeSlots(a, n)| == n - 1 && forall i | 0 <= i < n - 1 :: FreeSlots(a, n)[i] == i + 1
  {
    if n > 1 {
      FreeAfterFirst(a, n - 1);
    } else {
      assert FreeSlots(a, 0) == [];
    }
  }

  /** Among the transactions on offer none is mistaken for one of the block. */
  ghost predicate NoCollision(vtx: seq<Tx>, shortId: int -> int, known: set<(int, Tx)>) {
    forall h, e | 0 <= h < |vtx| && e in known && e.0 == shortId(vtx[h].hash) :: e.1 == vtx[h]
  }

  /** Whatever stands in a slot is the transaction of the block. */
  predicate Partial(avail: seq<Slot>, vtx: seq<Tx>) {
    |avail| == |vtx| && forall h | 0 <= h < |vtx| :: avail[h].Full? ==> avail[h].tx == vtx[h]
  }

  lemma {:induction false} FindKey<K, V>(m: map<K, V>, v: V) returns (k: K)
    requires v in m.Values
    ensures k in m && m[k] == v
  {
    k :| k in m && m[k] == v;
  }

  lemma {:induction false} ScanIsPartial(
    m: Message, vtx: seq<Tx>, shortId: int -> int, sc: Scan, table: map<int, nat>, known: set<(int, Tx)>)
    requires Encodes(m, vtx, shortId) && NoCollision(vtx, shortId, known)
    requires Assigned(m.shortIds, FreeSlots(Placed(m, |m.prefilled|), m.Count()), table)
    requires ScanOk(Placed(m, |m.prefilled|), sc, table, known)
    ensures Partial(sc.avail, vtx)
  {
    var base := Placed(m, |m.prefilled|);
    forall h | 0 <= h < |vtx| && sc.avail[h].Full?
      ensures sc.avail[h].tx == vtx[h]
    {
      if h in table.Values {
        var s := FindKey(table, h);
        assert SlotOk(sc, table, known, s);
        var i := RankOf(m.shortIds, FreeSlots(base, m.Count()), table, s);
        assert FreeAt(m, i) == h;
      } else {
        PlacedAt(m, |m.prefilled|, h);
        var i :| 0 <= i < |m.prefilled| && PlaceOf(m.prefilled, i) == h;
      }
    }
  }

  /** The transactions that have to be asked for. */
  function Missing(vtx: seq<Tx>, avail: seq<Slot>, n: nat): (r: seq<Tx>)
    requires n <= |avail| == |vtx|
    ensures |r| == |FreeSlots(avail, n)|
  {
    if n == 0 then [] else Missing(vtx, avail, n - 1) + (if avail[n - 1].Empty? then [vtx[n - 1]] else [])
  }

  /** The block from the slots, the empty ones filled in order from `missing`. */
  function Assemble(avail: seq<Slot>, missing: seq<Tx>, n: nat): (r: seq<Tx>)
    requires n <= |avail| && |FreeSlots(avail, n)| <= |missing|
    ensures |r| == n
  {
    if n == 0 then []
    else
      Assemble(avail, missing, n - 1) +
      [if avail[n - 1].Full? then avail[n - 1].tx else missing[|FreeSlots(avail, n - 1)|]]
  }

  /** With the missing transactions supplied, the block is the original. */
  lemma {:induction false} Reassembles(avail: seq<Slot>, vtx: seq<Tx>, missing: seq<Tx>, n: nat)
    requires Partial(avail, vtx) && n <= |vtx| && Missing(vtx, avail, n) <= missing
    ensures Assemble(avail, missing, n) == vtx[..n]
  {
    if n > 0 {
      Reassembles(avail, vtx, missing, n - 1);
      if avail[n - 1].Empty? {
        var k := |FreeSlots(avail, n - 1)|;
        assert Missing(vtx, avail, n)[k] == vtx[n - 1];
      }
    }
  }

  /** The transactions sent are those at the indexes asked for. */
  lemma {:induction false} MissingAt(vtx: seq<Tx>, avail: seq<Slot>, n: nat, i: nat)
    requires n <= |avail| == |vtx| && i < |FreeSlots(avail, n)|
    ensures Missing(vtx, avail, n)[i] == vtx[FreeSlots(avail, n)[i]]
  {
    if i < |FreeSlots(avail, n - 1)| {
      MissingAt(vtx, avail, n - 1, i);
    }
  }

  /** From the message, the offers and the reply to the request, the receiver
      rebuilds the block, whatever the pool holds. */
  lemma {:induction false} Delivered(m: Message, vtx: seq<Tx>, shortId: int -> int, sc: Scan, table: map<int, nat>,
                  known: set<(int, Tx)>, reply: seq<Tx>)
    requires Encodes(m, vtx, shortId) && NoCollision(vtx, shortId, known)
    requires Assigned(m.shortIds, FreeSlots(Placed(m, |m.prefilled|), m.Count()), table)
    requires ScanOk(Placed(m, |m.prefilled|), sc, table, known)
    requires |reply| == |FreeSlots(sc.avail, |vtx|)|
    requires forall i | 0 <= i < |reply| :: reply[i] == vtx[FreeSlots(sc.avail, |vtx|)[i]]
    ensures Assemble(sc.avail, reply, |vtx|) == vtx
  {
    ScanIsPartial(m, vtx, shortId, sc, table, known);
    forall i | 0 <= i < |reply|
      ensures reply[i] == Missing(vtx, sc.avail, |vtx|)[i]
    {
      MissingAt(vtx, sc.avail, |vtx|, i);
    }
    assert reply == Missing(vtx, sc.avail, |vtx|);
    Reassembles(sc.avail, vtx, reply, |vtx|);
  }

  // ----- filling in

  /** The slots once the first `n` were moved into the block. */
  function MovedOut(avail: seq<Slot>, n: nat): (r: seq<Slot>)
    ensures |r| == |avail|
  {
    seq(|avail|, i requires 0 <= i < |avail| => if i < n then Empty else avail[i])
  }
}
