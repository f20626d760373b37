/**
  Check_ of src/addrman.cpp, the code's own test of the address manager, step by
  step.  It is proved to find nothing wrong if and only if the manager is
  consistent, but for surplus entries in the index by address.
 */
module AddrManCheck {
  import opened Common
  import opened AddrMan
  import opened AddrManInv
  import opened AddrManObject

  // ----- sizes

  lemma {:induction false} OrderSize(info: Infos, order: seq<int>, n: nat)
    requires Ordered(info, order) && n <= |order|
    ensures |set i | 0 <= i < n :: order[i]| == n
  {
    if n > 0 {
      OrderSize(info, order, n - 1);
      var s, t := set i | 0 <= i < n - 1 :: order[i], set i | 0 <= i < n :: order[i];
      assert t == s + {order[n - 1]};
      assert OrderAt(info, order, n - 1);
      forall i | 0 <= i < n - 1
        ensures order[i] != order[n - 1]
      {
        assert OrderAt(info, order, i);
      }
    }
  }

  /** The order is as long as the two counters together. */
  lemma {:induction false} SizesAgree(cfg: Config, m: Manager)
    requires Structured(cfg, m)
    ensures |m.order| == m.nTried + m.nNew
  {
    OrderSize(m.info, m.order, |m.order|);
    var all := set i | 0 <= i < |m.order| :: m.order[i];
    forall id | id in m.info
      ensures id in all
    {
      assert PosAt(m.info, m.order, id);
    }
    forall i | 0 <= i < |m.order|
      ensures m.order[i] in m.info
    {
      assert OrderAt(m.info, m.order, i);
    }
    assert all == NewIds(m.info) + TriedIds(m.info);
    assert NewIds(m.info) !! TriedIds(m.info);
  }

  // ----- what is checked

  /** The conditions on one entry; a lookup in mapAddr that finds nothing reads 0. */
  predicate EntryOk(m: Manager, id: int)
    requires id in m.info
  {
    var i := m.info[id];
    && (if i.tried then i.lastSuccess != 0 && i.refs == 0 else 1 <= i.refs <= NEW_BUCKETS_PER_ADDRESS)
    && (if i.addr.service.addr in m.ids then m.ids[i.addr.service.addr] else 0) == id
    && PosAt(m.info, m.order, id) && i.lastTry >= 0 && i.lastSuccess >= 0
  }

  ghost predicate EntriesOk(m: Manager) {
    forall id | id in m.info :: EntryOk(m, id)
  }

  /** The new table holds entries at their places, as often as they are counted. */
  ghost predicate NewOk(cfg: Config, m: Manager) {
    && NewPlaced(cfg, m.info, m.newTable)
    && forall id | id in m.info && !m.info[id].tried :: CountOk(cfg, m, id)
  }

  predicate CountOk(cfg: Config, m: Manager, id: int)
    requires id in m.info
  {
    m.info[id].refs == |Buckets(cfg, m.info[id].addr.service, m.newTable, id)|
  }

  /** All that Check_ looks at, but for the key. */
  ghost predicate Checked(cfg: Config, m: Manager) {
    && |m.order| == m.nTried + m.nNew && Counted(m, 0) && EntriesOk(m)
    && TriedPlaced(cfg, m.info, m.triedTable) && NewOk(cfg, m)
  }

  /** A manager is consistent if and only if it passes and its index by address
      holds the entries and nothing else: that index is the one thing that is
      looked at from one side only. */
  lemma {:induction false} ConsistentIff(cfg: Config, m: Manager)
    ensures Inv(cfg, m) <==> Checked(cfg, m) && Indexed(m.info, m.ids, m.nextId) && m.nextId >= 0
  {
    if Inv(cfg, m) {
      ConsistentPasses(cfg, m);
    }
    if Checked(cfg, m) && Indexed(m.info, m.ids, m.nextId) && m.nextId >= 0 {
      PassingOrdered(m);
      PassingReferenced(cfg, m);
      forall id | id in m.info
        ensures SettledAt(m.info, id) && TimesAt(m.info, id)
      {
        assert EntryOk(m, id);
      }
    }
  }

  lemma {:induction false} ConsistentPasses(cfg: Config, m: Manager)
    requires Inv(cfg, m)
    ensures Checked(cfg, m)
  {
    SizesAgree(cfg, m);
    forall id | id in m.info
      ensures EntryOk(m, id) && CountOk(cfg, m, id)
    {
      assert RefsAt(cfg, m.info, m.newTable, id) && SettledAt(m.info, id) && TimesAt(m.info, id);
      assert IndexedAt(m.info, m.ids, m.nextId, id) && PosAt(m.info, m.order, id);
    }
  }

  lemma {:induction false} PassingReferenced(cfg: Config, m: Manager)
    requires Checked(cfg, m)
    ensures Referenced(cfg, m.info, m.newTable)
  {
    forall id | id in m.info
      ensures RefsAt(cfg, m.info, m.newTable, id)
    {
      assert EntryOk(m, id);
      if m.info[id].tried {
        NoNewBuckets(cfg, m, id);
      } else {
        assert CountOk(cfg, m, id);
      }
    }
  }

  /** No new slot holds a tried entry. */
  lemma {:induction false} NoNewBuckets(cfg: Config, m: Manager, id: int)
    requires NewPlaced(cfg, m.info, m.newTable) && id in m.info && m.info[id].tried
    ensures Buckets(cfg, m.info[id].addr.service, m.newTable, id) == {}
  {
    forall b: nat | b < NEW_BUCKET_COUNT
      ensures !InBucket(cfg, m.info[id].addr.service, m.newTable, id, b)
    {
      var s := NewSlot(cfg, m.info[id].addr.service, b);
      assert s in m.newTable ==> NewSlotAt(cfg, m.info, m.newTable, s);
    }
  }

  /** As many entries as places, each at its own: so every place is taken. */
  lemma {:induction false} PassingOrdered(m: Manager)
    requires |m.order| == m.nTried + m.nNew && Counted(m, 0) && EntriesOk(m)
    ensures Ordered(m.info, m.order)
  {
    assert m.info.Keys == NewIds(m.info) + TriedIds(m.info) && NewIds(m.info) !! TriedIds(m.info);
    forall i | 0 <= i < |m.order|
      ensures OrderAt(m.info, m.order, i)
    {
      PlaceTaken(m, i);
    }
    forall id | id in m.info
      ensures PosAt(m.info, m.order, id)
    {
      assert EntryOk(m, id);
    }
  }

  lemma {:induction false} PlaceTaken(m: Manager, i: nat)
    requires |m.info.Keys| == |m.order| && EntriesOk(m) && i < |m.order|
    ensures OrderAt(m.info, m.order, i)
  {
    var places := set id | id in m.info :: m.info[id].pos;
    forall id | id in m.info
      ensures PosAt(m.info, m.order, id)
    {
      assert EntryOk(m, id);
    }
    ImageSize(m, m.info.Keys);
    FullRange(places, |m.order|, i);
    var id :| id in m.info && m.info[id].pos == i;
  }

  /** Places are distinct, so there are as many as entries. */
  lemma {:induction false} ImageSize(m: Manager, ids: set<int>)
    requires ids <= m.info.Keys && forall id | id in ids :: PosAt(m.info, m.order, id)
    ensures |set id | id in ids :: m.info[id].pos| == |ids|
    decreases |ids|
  {
    if ids != {} {
      var x := SomeElement(ids);
      ImageSize(m, ids - {x});
      var rest := set id | id in ids - {x} :: m.info[id].pos;
      assert (set id | id in ids :: m.info[id].pos) == rest + {m.info[x].pos};
    }
  }

  /** The numbers from 0 to n - 1. */
  function UpTo(n: nat): (s: set<int>)
    ensures |s| == n && forall x :: x in s <==> 0 <= x < n
  {
    if n == 0 then {} else UpTo(n - 1) + {n - 1}
  }

  lemma {:induction false} FullRange(s: set<int>, n: nat, i: nat)
    requires i < n && |s| == n && forall x | x in s :: 0 <= x < n
    ensures i in s
  {
    assert s <= UpTo(n);
    SubsetSame(s, UpTo(n));
  }

  lemma {:induction false} SubsetSame(s: set<int>, t: set<int>)
    requires s <= t && |s| == |t|
    ensures s == t
  {
    assert t == s + (t - s);
    assert |t - s| == 0;
  }

  // ----- the entries

  /** What is wrong with one entry, or 0. */
  method CheckEntry(am: AddressManager, n: int) returns (err: int)
    requires am.Valid() && n in am.mapInfo
    ensures err == 0 <==> EntryOk(am.Model(), n)
  {
    var info := am.mapInfo[n];
    if info.tried {
      if info.lastSuccess == 0 {
        return -1;
      }
      if info.refs != 0 {
        return -2;
      }
    } else {
      if info.refs < 0 || info.refs > NEW_BUCKETS_PER_ADDRESS {
        return -3;
      }
      if info.refs == 0 {
        return -4;
      }
    }
    var a := info.addr.service.addr;
    if (if a in am.mapAddr then am.mapAddr[a] else 0) != n {
      return -5;
    }
    if info.pos < 0 || info.pos >= |am.vRandom| || am.vRandom[info.pos] != n {
      return -14;
    }
    if info.lastTry < 0 {
      return -6;
    }
    if info.lastSuccess < 0 {
      return -8;
    }
    return 0;
  }

  /** The entries outside `todo` are in order, and listed as tried or as new. */
  ghost predicate EntriesSeen(m: Manager, todo: set<int>, tried: set<int>, news: map<int, int>) {
    && todo <= m.info.Keys
    && (forall id | id in m.info && id !in todo :: EntryOk(m, id))
    && tried == TriedIds(m.info) - todo && news.Keys == NewIds(m.info) - todo
    && forall id | id in news :: news[id] == m.info[id].refs
  }

  lemma {:induction false} TriedEntrySeen(m: Manager, todo: set<int>, tried: set<int>, news: map<int, int>, n: int)
    requires EntriesSeen(m, todo, tried, news) && n in todo && EntryOk(m, n) && m.info[n].tried
    ensures EntriesSeen(m, todo - {n}, tried + {n}, news)
  {
  }

  lemma {:induction false} NewEntrySeen(m: Manager, todo: set<int>, tried: set<int>, news: map<int, int>, n: int)
    requires EntriesSeen(m, todo, tried, news) && n in todo && EntryOk(m, n) && !m.info[n].tried
    ensures EntriesSeen(m, todo - {n}, tried, news[n := m.info[n].refs])
  {
  }

  /** The first loop: every entry by itself. */
  method CheckEntries(am: AddressManager) returns (err: int, setTried: set<int>, mapNew: map<int, int>)
    requires am.Valid()
    ensures err == 0 <==> EntriesOk(am.Model())
    ensures err == 0 ==> setTried == TriedIds(am.mapInfo) && mapNew.Keys == NewIds(am.mapInfo)
    ensures err == 0 ==> forall id | id in mapNew :: mapNew[id] == am.mapInfo[id].refs
  {
    setTried, mapNew := {}, map[];
    var todo := am.mapInfo.Keys;
    ghost var m := am.Model();
    while todo != {}
      invariant EntriesSeen(m, todo, setTried, mapNew)
      decreases |todo|
    {
      err, todo, setTried, mapNew := CheckNext(am, todo, setTried, mapNew);
      if err != 0 {
        return;
      }
    }
    err := 0;
  }

  method CheckNext(am: AddressManager, todo: set<int>, setTried: set<int>, mapNew: map<int, int>)
    returns (err: int, rest: set<int>, tried: set<int>, news: map<int, int>)
    requires am.Valid() && todo != {} && EntriesSeen(am.Model(), todo, setTried, mapNew)
    ensures err == 0 ==> |rest| < |todo| && EntriesSeen(am.Model(), rest, tried, news)
    ensures err != 0 ==> !EntriesOk(am.Model())
  {
    ghost var some := SomeElement(todo);
    var n :| n in todo;
    err := CheckEntry(am, n);
    rest, tried, news := todo - {n}, setTried, mapNew;
    if err != 0 {
      return;
    }
    var info := am.mapInfo[n];
    if info.tried {
      tried := tried + {n};
      TriedEntrySeen(am.Model(), todo, setTried, mapNew, n);
    } else {
      news := news[n := info.refs];
      NewEntrySeen(am.Model(), todo, setTried, mapNew, n);
    }
  }

  // ----- the tried table

  /** The entry has been met in its own slot. */
  predicate MetTried(cfg: Config, m: Manager, id: int, n: nat, i: nat)
    requires id in m.info
  {
    var s := TriedSlot(cfg, m.info[id].addr.service);
    Before(s, n, i) && s in m.triedTable && m.triedTable[s] == id
  }

  /** The slots passed are right, and `left` are the tried entries not yet met. */
  ghost predicate TriedSeen(cfg: Config, m: Manager, left: set<int>, n: nat, i: nat) {
    && (forall s | s in m.triedTable && Before(s, n, i) :: TriedSlotAt(cfg, m.info, m.triedTable, s))
    && (forall id | id in left :: id in m.info && m.info[id].tried)
    && (forall id | id in m.info && m.info[id].tried :: id in left <==> !MetTried(cfg, m, id, n, i))
  }

  /** What the code tests at a taken slot. */
  predicate TriedTest(cfg: Config, m: Manager, left: set<int>, n: nat, i: nat, v: int) {
    v in left && v in m.info &&
    TriedBucket(cfg, m.info[v].addr.service) == n && Position(cfg, false, n, m.info[v].addr.service) == i
  }

  lemma {:induction false} TriedStep(cfg: Config, m: Manager, left: set<int>, n: nat, i: nat)
    requires TriedSeen(cfg, m, left, n, i)
    ensures Slot(n, i) !in m.triedTable ==> TriedSeen(cfg, m, left, n, i + 1)
    ensures Slot(n, i) in m.triedTable ==>
      var v := m.triedTable[Slot(n, i)];
      && (TriedTest(cfg, m, left, n, i, v) <==> TriedSlotAt(cfg, m.info, m.triedTable, Slot(n, i)))
      && (TriedTest(cfg, m, left, n, i, v) ==> TriedSeen(cfg, m, left - {v}, n, i + 1))
  {
    var s := Slot(n, i);
    if s in m.triedTable && TriedTest(cfg, m, left, n, i, m.triedTable[s]) {
      var v := m.triedTable[s];
      forall id | id in m.info && m.info[id].tried
        ensures id in left - {v} <==> !MetTried(cfg, m, id, n, i + 1)
      {
        assert id in left <==> !MetTried(cfg, m, id, n, i);
      }
    }
    if s !in m.triedTable {
      forall id | id in m.info && m.info[id].tried
        ensures id in left <==> !MetTried(cfg, m, id, n, i + 1)
      {
        assert id in left <==> !MetTried(cfg, m, id, n, i);
      }
    }
  }

  lemma {:induction false} NextTried(cfg: Config, m: Manager, left: set<int>, n: nat)
    requires TriedSeen(cfg, m, left, n, BUCKET_SIZE) && forall s | s in m.triedTable :: s.pos < BUCKET_SIZE
    ensures TriedSeen(cfg, m, left, n + 1, 0)
  {
    forall id | id in m.info && m.info[id].tried
      ensures id in left <==> !MetTried(cfg, m, id, n + 1, 0)
    {
      assert id in left <==> !MetTried(cfg, m, id, n, BUCKET_SIZE);
    }
  }

  lemma {:induction false} TriedEnd(cfg: Config, m: Manager, left: set<int>)
    requires TriedSeen(cfg, m, left, TRIED_BUCKET_COUNT, 0)
    requires forall s | s in m.triedTable :: s.bucket < TRIED_BUCKET_COUNT
    ensures left == {} <==> TriedPlaced(cfg, m.info, m.triedTable)
  {
    forall id | id in m.info
      ensures TriedAt(cfg, m.info, m.triedTable, id) <==> id !in left
    {
      assert m.info[id].tried ==> (id in left <==> !MetTried(cfg, m, id, TRIED_BUCKET_COUNT, 0));
    }
    if left != {} {
      var id := SomeElement(left);
    }
  }

  /** The second loop: every tried slot holds an entry that belongs there. */
  method CheckTried(am: AddressManager, tried: set<int>) returns (err: int, left: set<int>)
    requires am.Valid() && tried == TriedIds(am.mapInfo)
    ensures err == 0 && left == {} <==> TriedPlaced(am.cfg, am.mapInfo, TableOf(am.vvTried))
  {
    left := tried;
    ghost var m := am.Model();
    for n := 0 to TRIED_BUCKET_COUNT
      invariant TriedSeen(am.cfg, m, left, n, 0)
    {
      err, left := CheckTriedBucket(am, left, n, m);
      if err != 0 {
        return;
      }
    }
    err := 0;
    TriedEnd(am.cfg, m, left);
  }

  method CheckTriedBucket(am: AddressManager, tried: set<int>, n: nat, ghost m: Manager)
    returns (err: int, left: set<int>)
    requires am.Valid() && m == am.Model() && n < TRIED_BUCKET_COUNT && TriedSeen(am.cfg, m, tried, n, 0)
    ensures err == 0 ==> TriedSeen(am.cfg, m, left, n + 1, 0)
    ensures err != 0 ==> !TriedPlaced(am.cfg, m.info, m.triedTable)
  {
    left := tried;
    for i := 0 to BUCKET_SIZE
      invariant TriedSeen(am.cfg, m, left, n, i)
    {
      err, left := CheckTriedSlot(am, left, n, i, m);
      if err != 0 {
        return;
      }
    }
    err := 0;
    NextTried(am.cfg, m, left, n);
  }

  method CheckTriedSlot(am: AddressManager, left: set<int>, n: nat, i: nat, ghost m: Manager)
    returns (err: int, rest: set<int>)
    requires am.Valid() && m == am.Model() && n < TRIED_BUCKET_COUNT && i < BUCKET_SIZE
    requires TriedSeen(am.cfg, m, left, n, i)
    ensures err == 0 ==> TriedSeen(am.cfg, m, rest, n, i + 1)
    ensures err != 0 ==> !TriedPlaced(am.cfg, m.info, m.triedTable)
  {
    rest := left;
    TriedStep(am.cfg, m, left, n, i);
    var v := am.vvTried[n, i];
    if v == -1 {
      assert Slot(n, i) !in TableOf(am.vvTried);
      return 0, rest;
    }
    assert TableOf(am.vvTried)[Slot(n, i)] == v;
    if v !in left {
      return -11, rest;
    }
    var s := am.mapInfo[v].addr.service;
    if TriedBucket(am.cfg, s) != n {
      return -17, rest;
    }
    if Position(am.cfg, false, n, s) != i {
      return -18, rest;
    }
    return 0, left - {v};
  }

  // ----- the new table

  /** The buckets in which an entry has been met. */
  ghost function Met(cfg: Config, m: Manager, id: int, n: nat, i: nat): set<nat>
    requires id in m.info
  {
    var s := m.info[id].addr.service;
    set b | b in Buckets(cfg, s, m.newTable, id) && Before(NewSlot(cfg, s, b), n, i)
  }

  /** The slots passed are right, and `left` counts the references to come. */
  ghost predicate NewSeen(cfg: Config, m: Manager, left: map<int, int>, n: nat, i: nat) {
    && (forall s | s in m.newTable && Before(s, n, i) :: NewSlotAt(cfg, m.info, m.newTable, s))
    && (forall id | id in left :: id in m.info && !m.info[id].tried)
    && (forall id | id in m.info && !m.info[id].tried :: LeftOf(cfg, m, left, n, i, id))
  }

  ghost predicate LeftOf(cfg: Config, m: Manager, left: map<int, int>, n: nat, i: nat, id: int)
    requires id in m.info
  {
    var k := m.info[id].refs - |Met(cfg, m, id, n, i)|;
    k >= 0 && (id in left <==> k > 0) && (id in left ==> left[id] == k)
  }

  lemma {:induction false} NewStart(cfg: Config, m: Manager, left: map<int, int>)
    requires EntriesOk(m) && left.Keys == NewIds(m.info) && forall id | id in left :: left[id] == m.info[id].refs
    ensures NewSeen(cfg, m, left, 0, 0)
  {
    forall id | id in m.info && !m.info[id].tried
      ensures LeftOf(cfg, m, left, 0, 0, id)
    {
      assert EntryOk(m, id);
      assert Met(cfg, m, id, 0, 0) == {};
    }
  }

  /** A place that is not the entry's adds nothing to what has been met. */
  lemma {:induction false} OtherPlace(cfg: Config, m: Manager, id: int, n: nat, i: nat)
    requires id in m.info && (Slot(n, i) !in m.newTable || m.newTable[Slot(n, i)] != id)
    ensures Met(cfg, m, id, n, i + 1) == Met(cfg, m, id, n, i)
  {
    var s := m.info[id].addr.service;
    forall b | b in Met(cfg, m, id, n, i + 1)
      ensures NewSlot(cfg, s, b) != Slot(n, i)
    {
    }
  }

  lemma {:induction false} OwnPlace(cfg: Config, m: Manager, n: nat, i: nat)
    requires Slot(n, i) in m.newTable && NewSlotAt(cfg, m.info, m.newTable, Slot(n, i))
    ensures var id := m.newTable[Slot(n, i)];
      && n in Buckets(cfg, m.info[id].addr.service, m.newTable, id) && n !in Met(cfg, m, id, n, i)
      && Met(cfg, m, id, n, i + 1) == Met(cfg, m, id, n, i) + {n}
  {
    var id := m.newTable[Slot(n, i)];
    var s := m.info[id].addr.service;
    assert InBucket(cfg, s, m.newTable, id, n);
  }

  function OneLess(left: map<int, int>, id: int): map<int, int>
    requires id in left
  {
    if left[id] - 1 == 0 then left - {id} else left[id := left[id] - 1]
  }

  /** What the code tests at a taken slot. */
  predicate NewTest(cfg: Config, m: Manager, left: map<int, int>, n: nat, i: nat, v: int) {
    v in left && v in m.info && Position(cfg, true, n, m.info[v].addr.service) == i
  }

  /** A slot passes if its entry belongs there and has a reference to come. */
  lemma {:induction false} NewTestIs(cfg: Config, m: Manager, left: map<int, int>, n: nat, i: nat)
    requires NewSeen(cfg, m, left, n, i) && Slot(n, i) in m.newTable && n < NEW_BUCKET_COUNT
    ensures var v := m.newTable[Slot(n, i)];
      && (NewTest(cfg, m, left, n, i, v) ==> NewSlotAt(cfg, m.info, m.newTable, Slot(n, i)))
      && (!NewTest(cfg, m, left, n, i, v) ==> !NewOk(cfg, m))
  {
    var s := Slot(n, i);
    var v := m.newTable[s];
    if !NewTest(cfg, m, left, n, i, v) && NewSlotAt(cfg, m.info, m.newTable, s) {
      OwnPlace(cfg, m, n, i);
      assert LeftOf(cfg, m, left, n, i, v);
      var all := Buckets(cfg, m.info[v].addr.service, m.newTable, v);
      assert Met(cfg, m, v, n, i) + {n} <= all;
      SubsetSize(Met(cfg, m, v, n, i) + {n}, all);
      assert !CountOk(cfg, m, v);
    }
  }

  lemma {:induction false} NewStep(cfg: Config, m: Manager, left: map<int, int>, n: nat, i: nat)
    requires NewSeen(cfg, m, left, n, i) && Slot(n, i) in m.newTable && n < NEW_BUCKET_COUNT
    requires NewTest(cfg, m, left, n, i, m.newTable[Slot(n, i)])
    ensures NewSeen(cfg, m, OneLess(left, m.newTable[Slot(n, i)]), n, i + 1)
  {
    var id := m.newTable[Slot(n, i)];
    var next := OneLess(left, id);
    NewTestIs(cfg, m, left, n, i);
    OwnPlace(cfg, m, n, i);
    forall k | k in m.info && !m.info[k].tried
      ensures LeftOf(cfg, m, next, n, i + 1, k)
    {
      assert LeftOf(cfg, m, left, n, i, k);
      if k != id {
        OtherPlace(cfg, m, k, n, i);
      }
    }
  }

  lemma {:induction false} NewSkip(cfg: Config, m: Manager, left: map<int, int>, n: nat, i: nat)
    requires NewSeen(cfg, m, left, n, i) && Slot(n, i) !in m.newTable
    ensures NewSeen(cfg, m, left, n, i + 1)
  {
    forall k | k in m.info && !m.info[k].tried
      ensures LeftOf(cfg, m, left, n, i + 1, k)
    {
      assert LeftOf(cfg, m, left, n, i, k);
      OtherPlace(cfg, m, k, n, i);
    }
  }

  lemma {:induction false} NextBucket(cfg: Config, m: Manager, left: map<int, int>, n: nat)
    requires NewSeen(cfg, m, left, n, BUCKET_SIZE) && forall s | s in m.newTable :: s.pos < BUCKET_SIZE
    ensures NewSeen(cfg, m, left, n + 1, 0)
  {
    forall id | id in m.info && !m.info[id].tried
      ensures LeftOf(cfg, m, left, n + 1, 0, id)
    {
      assert LeftOf(cfg, m, left, n, BUCKET_SIZE, id);
      assert Met(cfg, m, id, n + 1, 0) == Met(cfg, m, id, n, BUCKET_SIZE);
    }
  }

  lemma {:induction false} NewEnd(cfg: Config, m: Manager, left: map<int, int>)
    requires NewSeen(cfg, m, left, NEW_BUCKET_COUNT, 0)
    requires forall s | s in m.newTable :: s.bucket < NEW_BUCKET_COUNT
    ensures left == map[] <==> NewOk(cfg, m)
  {
    forall id | id in m.info && !m.info[id].tried
      ensures CountOk(cfg, m, id) <==> id !in left
    {
      assert LeftOf(cfg, m, left, NEW_BUCKET_COUNT, 0, id);
      assert Met(cfg, m, id, NEW_BUCKET_COUNT, 0) == Buckets(cfg, m.info[id].addr.service, m.newTable, id);
    }
    if left.Keys != {} {
      var id := SomeElement(left.Keys);
    }
  }

  /** The third loop: every new slot holds an entry at its position, and the
      references are as many as counted. */
  method CheckNew(am: AddressManager, refs: map<int, int>) returns (err: int, left: map<int, int>)
    requires am.Valid() && EntriesOk(am.Model()) && refs.Keys == NewIds(am.mapInfo)
    requires forall id | id in refs :: refs[id] == am.mapInfo[id].refs
    ensures err == 0 && left == map[] <==> NewOk(am.cfg, am.Model())
  {
    left := refs;
    ghost var m := am.Model();
    NewStart(am.cfg, m, refs);
    for n := 0 to NEW_BUCKET_COUNT
      invariant NewSeen(am.cfg, m, left, n, 0)
    {
      err, left := CheckNewBucket(am, left, n, m);
      if err != 0 {
        return;
      }
    }
    err := 0;
    NewEnd(am.cfg, m, left);
  }

  method CheckNewBucket(am: AddressManager, refs: map<int, int>, n: nat, ghost m: Manager)
    returns (err: int, left: map<int, int>)
    requires am.Valid() && m == am.Model() && n < NEW_BUCKET_COUNT && NewSeen(am.cfg, m, refs, n, 0)
    ensures err == 0 ==> NewSeen(am.cfg, m, left, n + 1, 0)
    ensures err != 0 ==> !NewOk(am.cfg, m)
  {
    left := refs;
    for i := 0 to BUCKET_SIZE
      invariant NewSeen(am.cfg, m, left, n, i)
    {
      err, left := CheckNewSlot(am, left, n, i, m);
      if err != 0 {
        return;
      }
    }
    err := 0;
    NextBucket(am.cfg, m, left, n);
  }

  method CheckNewSlot(am: AddressManager, left: map<int, int>, n: nat, i: nat, ghost m: Manager)
    returns (err: int, rest: map<int, int>)
    requires am.Valid() && m == am.Model() && n < NEW_BUCKET_COUNT && i < BUCKET_SIZE && NewSeen(am.cfg, m, left, n, i)
    ensures err == 0 ==> NewSeen(am.cfg, m, rest, n, i + 1)
    ensures err != 0 ==> !NewOk(am.cfg, m)
  {
    rest := left;
    var v := am.vvNew[n, i];
    if v == -1 {
      assert Slot(n, i) !in TableOf(am.vvNew);
      NewSkip(am.cfg, m, left, n, i);
      return 0, rest;
    }
    assert TableOf(am.vvNew)[Slot(n, i)] == v;
    NewTestIs(am.cfg, m, left, n, i);
    if v !in left {
      return -12, rest;
    }
    if Position(am.cfg, true, n, am.mapInfo[v].addr.service) != i {
      return -19, rest;
    }
    NewStep(am.cfg, m, left, n, i);
    return 0, OneLess(left, v);
  }

  /** Check_: 0 if and only if everything it looks at is in order. */
  method Check(am: AddressManager, keyNull: bool) returns (err: int)
    requires am.Valid()
    ensures err == 0 <==> Checked(am.cfg, am.Model()) && !keyNull
  {
    if |am.vRandom| != am.nTried + am.nNew {
      return -7;
    }
    var setTried, mapNew;
    err, setTried, mapNew := CheckEntries(am);
    if err != 0 {
      return err;
    }
    if |setTried| != am.nTried {
      return -9;
    }
    assert |mapNew| == |mapNew.Keys|;
    if |mapNew| != am.nNew {
      return -10;
    }
    var errTried, errNew;
    errTried, setTried := CheckTried(am, setTried);
    if errTried != 0 {
      return errTried;
    }
    errNew, mapNew := CheckNew(am, mapNew);
    if errNew != 0 {
      return errNew;
    }
    if setTried != {} {
      return -13;
    }
    if mapNew != map[] {
      return -15;
    }
    if keyNull {
      return -16;
    }
    return 0;
  }
}
