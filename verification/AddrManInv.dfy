/**
  The consistency of the address manager (the conditions of Check_ in
  src/addrman.cpp) and the proof that every operation keeps it.  The part of it
  that speaks of indexes, tables and counters is kept whatever the clock says, so
  that no assertion of the source fires in any run.
 */
module AddrManInv {
  import opened Common
  import opened AddrMan

  // ----- the invariant, entry by entry

  predicate IndexedAt(info: Infos, ids: map<NetAddr, int>, nextId: int, id: int)
    requires id in info
  {
    0 <= id < nextId && info[id].addr.service.addr in ids && ids[info[id].addr.service.addr] == id
  }

  predicate AddrAt(info: Infos, ids: map<NetAddr, int>, a: NetAddr)
    requires a in ids
  {
    ids[a] in info && info[ids[a]].addr.service.addr == a
  }

  /** `info` and `ids` are inverse to each other. */
  ghost predicate Indexed(info: Infos, ids: map<NetAddr, int>, nextId: int) {
    && (forall id {:trigger IndexedAt(info, ids, nextId, id)} | id in info :: IndexedAt(info, ids, nextId, id))
    && (forall a {:trigger AddrAt(info, ids, a)} | a in ids :: AddrAt(info, ids, a))
  }

  predicate PosAt(info: Infos, order: seq<int>, id: int)
    requires id in info
  {
    0 <= info[id].pos < |order| && order[info[id].pos] == id
  }

  predicate OrderAt(info: Infos, order: seq<int>, i: int)
    requires 0 <= i < |order|
  {
    order[i] in info && info[order[i]].pos == i
  }

  /** `order` is a permutation of the ids and every entry knows its place. */
  ghost predicate Ordered(info: Infos, order: seq<int>) {
    && (forall id {:trigger PosAt(info, order, id)} | id in info :: PosAt(info, order, id))
    && (forall i {:trigger OrderAt(info, order, i)} | 0 <= i < |order| :: OrderAt(info, order, i))
  }

  predicate TriedAt(cfg: Config, info: Infos, table: Table, id: int)
    requires id in info
  {
    info[id].tried ==>
      var s := TriedSlot(cfg, info[id].addr.service);
      s in table && table[s] == id
  }

  predicate TriedSlotAt(cfg: Config, info: Infos, table: Table, s: Slot)
    requires s in table
  {
    table[s] in info && info[table[s]].tried && s == TriedSlot(cfg, info[table[s]].addr.service)
  }

  /** The tried table holds exactly the tried entries, each in its slot. */
  ghost predicate TriedPlaced(cfg: Config, info: Infos, table: Table) {
    && (forall id {:trigger TriedAt(cfg, info, table, id)} | id in info :: TriedAt(cfg, info, table, id))
    && (forall s {:trigger TriedSlotAt(cfg, info, table, s)} | s in table :: TriedSlotAt(cfg, info, table, s))
  }

  predicate NewSlotAt(cfg: Config, info: Infos, table: Table, s: Slot)
    requires s in table
  {
    && table[s] in info && !info[table[s]].tried && s.bucket < NEW_BUCKET_COUNT
    && s == NewSlot(cfg, info[table[s]].addr.service, s.bucket)
  }

  /** The new table holds entries that are not tried, at their positions. */
  ghost predicate NewPlaced(cfg: Config, info: Infos, table: Table) {
    forall s {:trigger NewSlotAt(cfg, info, table, s)} | s in table :: NewSlotAt(cfg, info, table, s)
  }

  predicate RefsAt(cfg: Config, info: Infos, table: Table, id: int)
    requires id in info
  {
    && info[id].refs == |Buckets(cfg, info[id].addr.service, table, id)|
    && info[id].refs <= NEW_BUCKETS_PER_ADDRESS
    && (info[id].tried ==> info[id].refs == 0)
  }

  /** Reference counts are the number of buckets an entry is in. */
  ghost predicate Referenced(cfg: Config, info: Infos, table: Table) {
    forall id {:trigger RefsAt(cfg, info, table, id)} | id in info :: RefsAt(cfg, info, table, id)
  }

  ghost predicate Shape(cfg: Config, m: Manager) {
    && Indexed(m.info, m.ids, m.nextId)
    && Ordered(m.info, m.order)
    && TriedPlaced(cfg, m.info, m.triedTable)
    && NewPlaced(cfg, m.info, m.newTable)
    && Referenced(cfg, m.info, m.newTable)
  }

  predicate SettledAt(info: Infos, id: int)
    requires id in info
  {
    info[id].tried || info[id].refs >= 1
  }

  /** Outside `loose`, every entry is tried or has a reference. */
  ghost predicate Settled(info: Infos, loose: set<int>) {
    forall id {:trigger SettledAt(info, id)} | id in info && id !in loose :: SettledAt(info, id)
  }

  function NewIds(info: Infos): set<int> {
    set id | id in info && !info[id].tried
  }

  function TriedIds(info: Infos): set<int> {
    set id | id in info && info[id].tried
  }

  /** `nTried` is exact, and `nNew` is `x` off. */
  predicate Counted(m: Manager, x: int) {
    m.nNew == |NewIds(m.info)| + x && m.nTried == |TriedIds(m.info)|
  }

  /** Indexes, tables and counters agree with each other. */
  ghost predicate Structured(cfg: Config, m: Manager) {
    Shape(cfg, m) && Settled(m.info, {}) && Counted(m, 0) && m.nextId >= 0
  }

  predicate TimesAt(info: Infos, id: int)
    requires id in info
  {
    info[id].lastTry >= 0 && info[id].lastSuccess >= 0 && (info[id].tried ==> info[id].lastSuccess > 0)
  }

  /** No time is before the epoch, and a tried entry has a time of success. */
  ghost predicate Timed(info: Infos) {
    forall id {:trigger TimesAt(info, id)} | id in info :: TimesAt(info, id)
  }

  /** A consistent manager: all of Check_, and the two indexes inverse. */
  ghost predicate Inv(cfg: Config, m: Manager) {
    Structured(cfg, m) && Timed(m.info)
  }

  // ----- frames

  /** What the tables and the order depend on. */
  predicate SameKind(a: Info, b: Info) {
    a.addr.service == b.addr.service && a.tried == b.tried && a.refs == b.refs
  }

  /** All but the order. */
  ghost predicate Moved(info: Infos, info': Infos) {
    info'.Keys == info.Keys && forall id | id in info :: info'[id] == info[id].(pos := info'[id].pos)
  }

  lemma {:induction false} IndexedFrame(info: Infos, info': Infos, ids: map<NetAddr, int>, nextId: int)
    requires Indexed(info, ids, nextId) && info'.Keys == info.Keys
    requires forall id | id in info :: info'[id].addr.service == info[id].addr.service
    ensures Indexed(info', ids, nextId)
  {
    forall id | id in info'
      ensures IndexedAt(info', ids, nextId, id)
    {
      assert IndexedAt(info, ids, nextId, id);
    }
    forall a | a in ids
      ensures AddrAt(info', ids, a)
    {
      var id := ids[a];
      assert AddrAt(info, ids, a) && info'[id].addr.service == info[id].addr.service;
    }
  }

  lemma {:induction false} OrderedFrame(info: Infos, info': Infos, order: seq<int>)
    requires Ordered(info, order) && info'.Keys == info.Keys
    requires forall id | id in info :: info'[id].pos == info[id].pos
    ensures Ordered(info', order)
  {
    forall id | id in info'
      ensures PosAt(info', order, id)
    {
      assert PosAt(info, order, id);
    }
    forall i | 0 <= i < |order|
      ensures OrderAt(info', order, i)
    {
      var id := order[i];
      assert OrderAt(info, order, i) && info'[id].pos == info[id].pos;
    }
  }

  lemma {:induction false} TriedFrame(cfg: Config, info: Infos, info': Infos, table: Table)
    requires TriedPlaced(cfg, info, table) && info'.Keys == info.Keys
    requires forall id | id in info :: SameKind(info[id], info'[id])
    ensures TriedPlaced(cfg, info', table)
  {
    forall id | id in info'
      ensures TriedAt(cfg, info', table, id)
    {
      assert TriedAt(cfg, info, table, id);
    }
    forall s | s in table
      ensures TriedSlotAt(cfg, info', table, s)
    {
      var id := table[s];
      assert TriedSlotAt(cfg, info, table, s) && SameKind(info[id], info'[id]);
    }
  }

  lemma {:induction false} NewFrame(cfg: Config, info: Infos, info': Infos, table: Table)
    requires NewPlaced(cfg, info, table) && info'.Keys == info.Keys
    requires forall id | id in info ::
               info'[id].addr.service == info[id].addr.service && info'[id].tried == info[id].tried
    ensures NewPlaced(cfg, info', table)
  {
    forall s | s in table
      ensures NewSlotAt(cfg, info', table, s)
    {
      var id := table[s];
      assert NewSlotAt(cfg, info, table, s) && info'[id].addr.service == info[id].addr.service;
    }
  }

  lemma {:induction false} CountFrame(m: Manager, r: Manager, x: int)
    requires Counted(m, x) && r.nNew == m.nNew && r.nTried == m.nTried
    requires r.info.Keys == m.info.Keys && forall id | id in m.info :: r.info[id].tried == m.info[id].tried
    ensures Counted(r, x)
  {
    assert forall id :: id in NewIds(r.info) <==> id in NewIds(m.info);
    assert NewIds(r.info) == NewIds(m.info);
    assert forall id :: id in TriedIds(r.info) <==> id in TriedIds(m.info);
    assert TriedIds(r.info) == TriedIds(m.info);
  }

  lemma {:induction false} SettledFrame(info: Infos, info': Infos, loose: set<int>)
    requires Settled(info, loose) && info'.Keys <= info.Keys
    requires forall id | id in info' && id !in loose ::
               info'[id].tried == info[id].tried && info'[id].refs == info[id].refs
    ensures Settled(info', loose)
  {
    forall id | id in info' && id !in loose
      ensures SettledAt(info', id)
    {
      assert SettledAt(info, id);
    }
  }

  // ----- the functions of the model, state by state

  lemma {:induction false} DeleteParts(m: Manager, id: int) returns (s: Manager)
    requires Delete(m, id).Some?
    ensures id in m.info && !m.info[id].tried && m.info[id].refs == 0
    ensures SwapRandom(m, m.info[id].pos, |m.order| - 1) == Some(s) && s.order != []
    ensures Delete(m, id) == Some(Drop(s, id, m.info[id].addr.service.addr))
  {
    s := SwapRandom(m, m.info[id].pos, |m.order| - 1).value;
  }

  lemma {:induction false} MakeTriedParts(cfg: Config, m: Manager, id: int) returns (u: Manager, e: Manager)
    requires id in m.info && MakeTried(cfg, m, id).Some?
    ensures var slot := TriedSlot(cfg, m.info[id].addr.service);
            && u == Unlink(m, id).(nNew := m.nNew - 1) && MakeRoom(cfg, u, slot) == Some(e)
            && id in e.info && slot !in e.triedTable && MakeTried(cfg, m, id) == Some(PutTried(e, id, slot))
  {
    u := Unlink(m, id).(nNew := m.nNew - 1);
    e := MakeRoom(cfg, u, TriedSlot(cfg, m.info[id].addr.service)).value;
  }

  lemma {:induction false} EvictParts(cfg: Config, m: Manager, slot: Slot) returns (u: Manager, c: Manager)
    requires slot in m.triedTable && Evict(cfg, m, slot).Some?
    ensures m.triedTable[slot] in m.info && u == Untry(m, slot)
    ensures var id := m.triedTable[slot];
            var home := HomeSlot(cfg, u.info[id]);
            && ClearNew(u, home) == Some(c) && id in c.info && home !in c.newTable
            && Evict(cfg, m, slot) == Some(Link(c, id, home, 1).(nNew := c.nNew + 1))
  {
    u := Untry(m, slot);
    c := ClearNew(u, HomeSlot(cfg, u.info[m.triedTable[slot]])).value;
  }

  // ----- primitives

  /** Times, services and counters of one entry change. */
  lemma {:induction false} SetInfoKeeps(cfg: Config, m: Manager, id: int, i: Info, x: int, loose: set<int>)
    requires Shape(cfg, m) && Settled(m.info, loose) && Counted(m, x) && id in m.info
    requires SameKind(m.info[id], i) && i.pos == m.info[id].pos
    ensures var r := SetInfo(m, id, i); Shape(cfg, r) && Settled(r.info, loose) && Counted(r, x)
  {
    var r := SetInfo(m, id, i);
    IndexedFrame(m.info, r.info, m.ids, m.nextId);
    OrderedFrame(m.info, r.info, m.order);
    TriedFrame(cfg, m.info, r.info, m.triedTable);
    NewFrame(cfg, m.info, r.info, m.newTable);
    forall k | k in r.info
      ensures RefsAt(cfg, r.info, r.newTable, k)
    {
      assert RefsAt(cfg, m.info, m.newTable, k);
    }
    CountFrame(m, r, x);
    SettledFrame(m.info, r.info, loose);
  }

  lemma {:induction false} CreateIndexed(m: Manager, addr: Address, source: NetAddr)
    requires Indexed(m.info, m.ids, m.nextId) && addr.service.addr !in m.ids && m.nextId >= 0
    ensures m.nextId !in m.info
    ensures var r := Create(m, addr, source); Indexed(r.info, r.ids, r.nextId)
  {
    var r := Create(m, addr, source);
    assert m.nextId in m.info ==> IndexedAt(m.info, m.ids, m.nextId, m.nextId);
    forall id | id in r.info
      ensures IndexedAt(r.info, r.ids, r.nextId, id)
    {
      assert id != m.nextId ==> IndexedAt(m.info, m.ids, m.nextId, id);
    }
    forall a | a in r.ids
      ensures AddrAt(r.info, r.ids, a)
    {
      assert a in m.ids ==> AddrAt(m.info, m.ids, a);
    }
  }

  lemma {:induction false} CreateOrdered(m: Manager, addr: Address, source: NetAddr)
    requires Ordered(m.info, m.order) && m.nextId !in m.info
    ensures var r := Create(m, addr, source); Ordered(r.info, r.order)
  {
    var r := Create(m, addr, source);
    forall id | id in r.info
      ensures PosAt(r.info, r.order, id)
    {
      assert id != m.nextId ==> PosAt(m.info, m.order, id);
    }
    forall i | 0 <= i < |r.order|
      ensures OrderAt(r.info, r.order, i)
    {
      assert i < |m.order| ==> OrderAt(m.info, m.order, i);
    }
  }

  lemma {:induction false} CreateTables(cfg: Config, m: Manager, addr: Address, source: NetAddr)
    requires TriedPlaced(cfg, m.info, m.triedTable) && NewPlaced(cfg, m.info, m.newTable)
    requires m.nextId !in m.info
    ensures var r := Create(m, addr, source);
            TriedPlaced(cfg, r.info, r.triedTable) && NewPlaced(cfg, r.info, r.newTable)
  {
    var r := Create(m, addr, source);
    forall id | id in r.info
      ensures TriedAt(cfg, r.info, r.triedTable, id)
    {
      assert id != m.nextId ==> TriedAt(cfg, m.info, m.triedTable, id);
    }
    forall s | s in r.triedTable
      ensures TriedSlotAt(cfg, r.info, r.triedTable, s)
    {
      assert TriedSlotAt(cfg, m.info, m.triedTable, s);
    }
    forall s | s in r.newTable
      ensures NewSlotAt(cfg, r.info, r.newTable, s)
    {
      assert NewSlotAt(cfg, m.info, m.newTable, s);
    }
  }

  lemma {:induction false} NoBuckets(cfg: Config, s: Service, table: Table, id: int)
    requires forall slot | slot in table :: table[slot] != id
    ensures Buckets(cfg, s, table, id) == {}
  {
    assert forall b: nat :: !InBucket(cfg, s, table, id, b);
  }

  lemma {:induction false} CreateRefs(cfg: Config, m: Manager, addr: Address, source: NetAddr)
    requires NewPlaced(cfg, m.info, m.newTable) && Referenced(cfg, m.info, m.newTable)
    requires m.nextId !in m.info
    ensures var r := Create(m, addr, source); Referenced(cfg, r.info, r.newTable)
  {
    var r := Create(m, addr, source);
    forall id | id in r.info
      ensures RefsAt(cfg, r.info, r.newTable, id)
    {
      if id != m.nextId {
        assert RefsAt(cfg, m.info, m.newTable, id);
      } else {
        forall s | s in m.newTable
          ensures m.newTable[s] != id
        {
          assert NewSlotAt(cfg, m.info, m.newTable, s);
        }
        NoBuckets(cfg, addr.service, m.newTable, id);
      }
    }
  }

  lemma {:induction false} CreateKeeps(cfg: Config, m: Manager, addr: Address, source: NetAddr, x: int, loose: set<int>)
    requires Shape(cfg, m) && Settled(m.info, loose) && Counted(m, x) && addr.service.addr !in m.ids && m.nextId >= 0
    ensures m.nextId !in m.info
    ensures var r := Create(m, addr, source);
            Shape(cfg, r) && Settled(r.info, loose + {m.nextId}) && Counted(r, x - 1)
  {
    var r := Create(m, addr, source);
    CreateIndexed(m, addr, source);
    CreateOrdered(m, addr, source);
    CreateTables(cfg, m, addr, source);
    CreateRefs(cfg, m, addr, source);
    OneMore(m.info, m.nextId, r.info[m.nextId]);
    forall id | id in r.info && id !in loose + {m.nextId}
      ensures SettledAt(r.info, id)
    {
      assert SettledAt(m.info, id);
    }
  }

  /** One more entry that is not tried. */
  lemma {:induction false} OneMore(info: Infos, id: int, i: Info)
    requires id !in info && !i.tried
    ensures var info' := info[id := i];
            |NewIds(info')| == |NewIds(info)| + 1 && |TriedIds(info')| == |TriedIds(info)|
  {
    var info' := info[id := i];
    assert forall k :: k in NewIds(info') <==> k in NewIds(info) || k == id;
    assert NewIds(info') == NewIds(info) + {id};
    assert forall k :: k in TriedIds(info') <==> k in TriedIds(info);
    assert TriedIds(info') == TriedIds(info);
  }

  lemma {:induction false} MovedKeeps(cfg: Config, m: Manager, r: Manager, x: int, loose: set<int>)
    requires Shape(cfg, m) && Settled(m.info, loose) && Counted(m, x) && Moved(m.info, r.info)
    requires r == m.(info := r.info, order := r.order) && Ordered(r.info, r.order)
    ensures Shape(cfg, r) && Settled(r.info, loose) && Counted(r, x)
  {
    IndexedFrame(m.info, r.info, m.ids, m.nextId);
    TriedFrame(cfg, m.info, r.info, m.triedTable);
    NewFrame(cfg, m.info, r.info, m.newTable);
    forall k | k in r.info
      ensures RefsAt(cfg, r.info, r.newTable, k)
    {
      assert RefsAt(cfg, m.info, m.newTable, k);
    }
    CountFrame(m, r, x);
    SettledFrame(m.info, r.info, loose);
  }

  lemma {:induction false} SwapOrdered(m: Manager, i: int, j: int)
    requires Ordered(m.info, m.order) && 0 <= i < |m.order| && 0 <= j < |m.order|
    ensures SwapRandom(m, i, j).Some?
    ensures var r := SwapRandom(m, i, j).value;
            && r == m.(info := r.info, order := r.order)
            && Moved(m.info, r.info) && Ordered(r.info, r.order)
            && |r.order| == |m.order| && r.order[i] == m.order[j] && r.order[j] == m.order[i]
            && multiset(r.order) == multiset(m.order)
  {
    assert OrderAt(m.info, m.order, i) && OrderAt(m.info, m.order, j);
    var r := SwapRandom(m, i, j).value;
    if i != j {
      forall id | id in r.info
        ensures PosAt(r.info, r.order, id)
      {
        assert PosAt(m.info, m.order, id);
      }
      forall k | 0 <= k < |r.order|
        ensures OrderAt(r.info, r.order, k)
      {
        assert OrderAt(m.info, m.order, k);
      }
    }
  }

  lemma {:induction false} SwapKeeps(cfg: Config, m: Manager, i: int, j: int, x: int, loose: set<int>)
    requires Shape(cfg, m) && Settled(m.info, loose) && Counted(m, x)
    requires 0 <= i < |m.order| && 0 <= j < |m.order|
    ensures SwapRandom(m, i, j).Some?
    ensures var r := SwapRandom(m, i, j).value; Shape(cfg, r) && Settled(r.info, loose) && Counted(r, x)
  {
    SwapOrdered(m, i, j);
    MovedKeeps(cfg, m, SwapRandom(m, i, j).value, x, loose);
  }

  lemma {:induction false} DropIndexed(m: Manager, id: int)
    requires Indexed(m.info, m.ids, m.nextId) && Ordered(m.info, m.order)
    requires id in m.info && m.order != [] && m.info[id].pos == |m.order| - 1
    ensures var r := Drop(m, id, m.info[id].addr.service.addr);
            Indexed(r.info, r.ids, r.nextId) && Ordered(r.info, r.order)
  {
    var r := Drop(m, id, m.info[id].addr.service.addr);
    assert IndexedAt(m.info, m.ids, m.nextId, id) && PosAt(m.info, m.order, id);
    forall k | k in r.info
      ensures IndexedAt(r.info, r.ids, r.nextId, k) && PosAt(r.info, r.order, k)
    {
      assert IndexedAt(m.info, m.ids, m.nextId, k) && PosAt(m.info, m.order, k);
    }
    forall a | a in r.ids
      ensures AddrAt(r.info, r.ids, a)
    {
      assert AddrAt(m.info, m.ids, a);
    }
    forall i | 0 <= i < |r.order|
      ensures OrderAt(r.info, r.order, i)
    {
      assert OrderAt(m.info, m.order, i);
    }
  }

  /** An entry without references is in no slot of the new table. */
  lemma {:induction false} NotInTable(cfg: Config, info: Infos, table: Table, id: int)
    requires NewPlaced(cfg, info, table) && id in info && RefsAt(cfg, info, table, id) && info[id].refs == 0
    ensures forall s | s in table :: table[s] != id
  {
    var b := Buckets(cfg, info[id].addr.service, table, id);
    forall s | s in table
      ensures table[s] != id
    {
      assert NewSlotAt(cfg, info, table, s);
      assert table[s] == id ==> s.bucket in b;
    }
  }

  lemma {:induction false} DropTables(cfg: Config, m: Manager, id: int)
    requires Shape(cfg, m)
    requires id in m.info && m.order != [] && !m.info[id].tried && m.info[id].refs == 0
    ensures var r := Drop(m, id, m.info[id].addr.service.addr);
            TriedPlaced(cfg, r.info, r.triedTable) && NewPlaced(cfg, r.info, r.newTable) &&
            Referenced(cfg, r.info, r.newTable)
  {
    var r := Drop(m, id, m.info[id].addr.service.addr);
    assert RefsAt(cfg, m.info, m.newTable, id);
    NotInTable(cfg, m.info, m.newTable, id);
    forall k | k in r.info
      ensures TriedAt(cfg, r.info, r.triedTable, k) && RefsAt(cfg, r.info, r.newTable, k)
    {
      assert TriedAt(cfg, m.info, m.triedTable, k) && RefsAt(cfg, m.info, m.newTable, k);
    }
    forall s | s in r.triedTable
      ensures TriedSlotAt(cfg, r.info, r.triedTable, s)
    {
      assert TriedSlotAt(cfg, m.info, m.triedTable, s);
    }
    forall s | s in r.newTable
      ensures NewSlotAt(cfg, r.info, r.newTable, s)
    {
      assert NewSlotAt(cfg, m.info, m.newTable, s);
    }
  }

  lemma {:induction false} DropKeeps(cfg: Config, m: Manager, id: int, x: int, loose: set<int>)
    requires Shape(cfg, m) && Settled(m.info, loose + {id}) && Counted(m, x)
    requires id in m.info && m.order != [] && m.info[id].pos == |m.order| - 1
    requires !m.info[id].tried && m.info[id].refs == 0
    ensures var r := Drop(m, id, m.info[id].addr.service.addr); Shape(cfg, r) && Settled(r.info, loose) && Counted(r, x)
  {
    var r := Drop(m, id, m.info[id].addr.service.addr);
    DropIndexed(m, id);
    DropTables(cfg, m, id);
    assert r.info[id := m.info[id]] == m.info;
    OneMore(r.info, id, m.info[id]);
    forall k | k in r.info && k !in loose
      ensures SettledAt(r.info, k)
    {
      assert SettledAt(m.info, k);
    }
  }

  /** Entry `id` is gone; the others only moved in the order. */
  ghost predicate Gone(m: Manager, r: Manager, id: int) {
    && r.info.Keys == m.info.Keys - {id}
    && (forall k | k in r.info :: r.info[k] == m.info[k].(pos := r.info[k].pos))
    && r.newTable == m.newTable && r.triedTable == m.triedTable && r.nextId == m.nextId
  }

  /** Delete: no assertion fires, and the entry is gone without a trace. */
  lemma {:induction false} DeleteKeeps(cfg: Config, m: Manager, id: int, x: int, loose: set<int>)
    requires Shape(cfg, m) && Settled(m.info, loose + {id}) && Counted(m, x)
    requires id in m.info && !m.info[id].tried && m.info[id].refs == 0
    ensures Delete(m, id).Some?
    ensures var r := Delete(m, id).value; Shape(cfg, r) && Settled(r.info, loose) && Counted(r, x) && Gone(m, r, id)
  {
    assert PosAt(m.info, m.order, id);
    var i, last := m.info[id].pos, |m.order| - 1;
    SwapKeeps(cfg, m, i, last, x, loose + {id});
    SwapOrdered(m, i, last);
    var s := SwapRandom(m, i, last).value;
    assert OrderAt(s.info, s.order, last);
    DropKeeps(cfg, s, id, x, loose);
    assert Delete(m, id).value == Drop(s, id, m.info[id].addr.service.addr);
  }

  // ----- slots of the new table

  lemma {:induction false} BucketsWithout(cfg: Config, s: Service, table: Table, b: nat, id: int)
    requires b < NEW_BUCKET_COUNT && InBucket(cfg, s, table, id, b)
    ensures Buckets(cfg, s, table - {NewSlot(cfg, s, b)}, id) == Buckets(cfg, s, table, id) - {b}
    ensures b in Buckets(cfg, s, table, id)
  {
    var slot := NewSlot(cfg, s, b);
    forall c: nat | c < NEW_BUCKET_COUNT
      ensures InBucket(cfg, s, table - {slot}, id, c) <==> InBucket(cfg, s, table, id, c) && c != b
    {
    }
  }

  lemma {:induction false} BucketsOther(cfg: Config, s: Service, table: Table, table': Table, id: int)
    requires forall slot: Slot :: (slot in table && table[slot] == id) <==> (slot in table' && table'[slot] == id)
    ensures Buckets(cfg, s, table', id) == Buckets(cfg, s, table, id)
  {
    forall b: nat | b < NEW_BUCKET_COUNT
      ensures InBucket(cfg, s, table', id, b) == InBucket(cfg, s, table, id, b)
    {
      var slot := NewSlot(cfg, s, b);
      assert (slot in table && table[slot] == id) <==> (slot in table' && table'[slot] == id);
    }
  }

  lemma {:induction false} BucketsWith(cfg: Config, s: Service, table: Table, b: nat, id: int)
    requires b < NEW_BUCKET_COUNT && NewSlot(cfg, s, b) !in table
    ensures Buckets(cfg, s, table[NewSlot(cfg, s, b) := id], id) == Buckets(cfg, s, table, id) + {b}
    ensures b !in Buckets(cfg, s, table, id)
  {
    var slot := NewSlot(cfg, s, b);
    forall c: nat | c < NEW_BUCKET_COUNT
      ensures InBucket(cfg, s, table[slot := id], id, c) <==> InBucket(cfg, s, table, id, c) || c == b
    {
    }
  }

  /** Changing one entry's reference count touches neither index nor order. */
  lemma {:induction false} SetRefsFrame(cfg: Config, m: Manager, id: int, refs: int, table: Table, x: int)
    requires Shape(cfg, m) && Counted(m, x) && id in m.info
    ensures var r := SetRefs(m, id, refs).(newTable := table);
            Indexed(r.info, r.ids, r.nextId) && Ordered(r.info, r.order) &&
            Counted(r, x)
  {
    var r := SetRefs(m, id, refs).(newTable := table);
    IndexedFrame(m.info, r.info, m.ids, m.nextId);
    OrderedFrame(m.info, r.info, m.order);
    CountFrame(m, r, x);
  }

  lemma {:induction false} SetRefsTried(cfg: Config, info: Infos, id: int, refs: int, table: Table)
    requires TriedPlaced(cfg, info, table) && id in info
    ensures TriedPlaced(cfg, info[id := info[id].(refs := refs)], table)
  {
    var info' := info[id := info[id].(refs := refs)];
    forall k | k in info'
      ensures TriedAt(cfg, info', table, k)
    {
      assert TriedAt(cfg, info, table, k);
    }
    forall s | s in table
      ensures TriedSlotAt(cfg, info', table, s)
    {
      assert TriedSlotAt(cfg, info, table, s);
    }
  }

  /** The entry in an occupied slot exists, is not tried and has a reference. */
  lemma {:induction false} Occupant(cfg: Config, m: Manager, slot: Slot)
    requires Shape(cfg, m) && slot in m.newTable
    ensures var id := m.newTable[slot];
            id in m.info && !m.info[id].tried && m.info[id].refs >= 1 &&
            slot.bucket < NEW_BUCKET_COUNT && slot == NewSlot(cfg, m.info[id].addr.service, slot.bucket)
  {
    var id := m.newTable[slot];
    assert NewSlotAt(cfg, m.info, m.newTable, slot);
    assert RefsAt(cfg, m.info, m.newTable, id);
    assert slot.bucket in Buckets(cfg, m.info[id].addr.service, m.newTable, id);
  }

  lemma {:induction false} UnrefRefs(cfg: Config, m: Manager, slot: Slot, k: int)
    requires Shape(cfg, m) && slot in m.newTable && m.newTable[slot] in m.info && k in m.info
    ensures var r := Unref(m, slot); RefsAt(cfg, r.info, r.newTable, k)
  {
    Occupant(cfg, m, slot);
    var r, id := Unref(m, slot), m.newTable[slot];
    assert RefsAt(cfg, m.info, m.newTable, k);
    if k == id {
      BucketsWithout(cfg, m.info[id].addr.service, m.newTable, slot.bucket, id);
    } else {
      BucketsOther(cfg, m.info[k].addr.service, m.newTable, r.newTable, k);
    }
  }

  lemma {:induction false} UnrefKeeps(cfg: Config, m: Manager, slot: Slot, x: int, loose: set<int>)
    requires Shape(cfg, m) && Settled(m.info, loose) && Counted(m, x)
    requires slot in m.newTable && m.newTable[slot] in m.info
    ensures var r := Unref(m, slot);
            Shape(cfg, r) && Settled(r.info, loose + {m.newTable[slot]}) && Counted(r, x)
  {
    var r, id := Unref(m, slot), m.newTable[slot];
    SetRefsFrame(cfg, m, id, m.info[id].refs - 1, r.newTable, x);
    SetRefsTried(cfg, m.info, id, m.info[id].refs - 1, m.triedTable);
    forall s | s in r.newTable
      ensures NewSlotAt(cfg, r.info, r.newTable, s)
    {
      assert NewSlotAt(cfg, m.info, m.newTable, s);
    }
    forall k | k in r.info
      ensures RefsAt(cfg, r.info, r.newTable, k)
    {
      UnrefRefs(cfg, m, slot, k);
    }
    forall k | k in r.info && k !in loose + {id}
      ensures SettledAt(r.info, k)
    {
      assert SettledAt(m.info, k);
    }
  }

  /** What clearing a slot does: the slot is empty, entries of other slots only
      moved in the order. */
  ghost predicate SlotCleared(m: Manager, r: Manager, slot: Slot) {
    && r.newTable == m.newTable - {slot} && r.triedTable == m.triedTable && r.nextId == m.nextId
    && r.info.Keys <= m.info.Keys
    && forall k | k in m.info && (slot in m.newTable ==> m.newTable[slot] != k) ::
         k in r.info && r.info[k] == m.info[k].(pos := r.info[k].pos)
  }

  lemma {:induction false} ClearNewKeeps(cfg: Config, m: Manager, slot: Slot, x: int, loose: set<int>)
    requires Shape(cfg, m) && Settled(m.info, loose) && Counted(m, x)
    ensures ClearNew(m, slot).Some?
    ensures var r := ClearNew(m, slot).value;
            Shape(cfg, r) && Settled(r.info, loose) && Counted(r, x) && SlotCleared(m, r, slot)
  {
    if slot in m.newTable {
      Occupant(cfg, m, slot);
      var id := m.newTable[slot];
      UnrefKeeps(cfg, m, slot, x, loose);
      var s := Unref(m, slot);
      if s.info[id].refs == 0 {
        DeleteKeeps(cfg, s, id, x, loose);
      } else {
        forall k | k in s.info && k !in loose
          ensures SettledAt(s.info, k)
        {
          assert k != id ==> SettledAt(m.info, k);
        }
      }
    } else {
      assert m.newTable - {slot} == m.newTable;
    }
  }

  lemma {:induction false} LinkRefs(cfg: Config, m: Manager, id: int, b: nat, k: int)
    requires Shape(cfg, m) && id in m.info && !m.info[id].tried && m.info[id].refs < NEW_BUCKETS_PER_ADDRESS
    requires b < NEW_BUCKET_COUNT && k in m.info && NewSlot(cfg, m.info[id].addr.service, b) !in m.newTable
    ensures var r := Link(m, id, NewSlot(cfg, m.info[id].addr.service, b), m.info[id].refs + 1);
            RefsAt(cfg, r.info, r.newTable, k)
  {
    var slot := NewSlot(cfg, m.info[id].addr.service, b);
    var r := Link(m, id, slot, m.info[id].refs + 1);
    assert RefsAt(cfg, m.info, m.newTable, k);
    if k == id {
      BucketsWith(cfg, m.info[id].addr.service, m.newTable, b, id);
    } else {
      BucketsOther(cfg, m.info[k].addr.service, m.newTable, r.newTable, k);
    }
  }

  lemma {:induction false} LinkKeeps(cfg: Config, m: Manager, id: int, b: nat, x: int, loose: set<int>)
    requires Shape(cfg, m) && Settled(m.info, loose + {id}) && Counted(m, x)
    requires id in m.info && !m.info[id].tried && m.info[id].refs < NEW_BUCKETS_PER_ADDRESS
    requires b < NEW_BUCKET_COUNT && NewSlot(cfg, m.info[id].addr.service, b) !in m.newTable
    ensures var r := Link(m, id, NewSlot(cfg, m.info[id].addr.service, b), m.info[id].refs + 1);
            Shape(cfg, r) && Settled(r.info, loose) && Counted(r, x)
  {
    var slot := NewSlot(cfg, m.info[id].addr.service, b);
    var refs := m.info[id].refs + 1;
    var r := Link(m, id, slot, refs);
    SetRefsFrame(cfg, m, id, refs, r.newTable, x);
    SetRefsTried(cfg, m.info, id, refs, m.triedTable);
    forall s | s in r.newTable
      ensures NewSlotAt(cfg, r.info, r.newTable, s)
    {
      assert s != slot ==> NewSlotAt(cfg, m.info, m.newTable, s);
    }
    forall k | k in r.info
      ensures RefsAt(cfg, r.info, r.newTable, k)
    {
      LinkRefs(cfg, m, id, b, k);
    }
    assert RefsAt(cfg, m.info, m.newTable, id);
    forall k | k in r.info && k !in loose
      ensures SettledAt(r.info, k)
    {
      assert k != id ==> SettledAt(m.info, k);
    }
  }

  lemma {:induction false} UnlinkKeeps(cfg: Config, m: Manager, id: int, x: int, loose: set<int>)
    requires Shape(cfg, m) && Settled(m.info, loose) && Counted(m, x) && id in m.info
    ensures var r := Unlink(m, id);
            Shape(cfg, r) && Settled(r.info, loose + {id}) && Counted(r, x)
  {
    var r := Unlink(m, id);
    SetRefsFrame(cfg, m, id, 0, r.newTable, x);
    SetRefsTried(cfg, m.info, id, 0, m.triedTable);
    forall s | s in r.newTable
      ensures NewSlotAt(cfg, r.info, r.newTable, s)
    {
      assert NewSlotAt(cfg, m.info, m.newTable, s);
    }
    forall k | k in r.info
      ensures RefsAt(cfg, r.info, r.newTable, k)
    {
      assert RefsAt(cfg, m.info, m.newTable, k);
      if k == id {
        NoBuckets(cfg, m.info[id].addr.service, r.newTable, id);
      } else {
        BucketsOther(cfg, m.info[k].addr.service, m.newTable, r.newTable, k);
      }
    }
    forall k | k in r.info && k !in loose + {id}
      ensures SettledAt(r.info, k)
    {
      assert SettledAt(m.info, k);
    }
  }

  // ----- the tried table

  lemma {:induction false} SetTriedFrame(m: Manager, id: int, tried: bool)
    requires Indexed(m.info, m.ids, m.nextId) && Ordered(m.info, m.order) && id in m.info
    ensures var info := m.info[id := m.info[id].(tried := tried)];
            Indexed(info, m.ids, m.nextId) && Ordered(info, m.order)
  {
    var info := m.info[id := m.info[id].(tried := tried)];
    IndexedFrame(m.info, info, m.ids, m.nextId);
    OrderedFrame(m.info, info, m.order);
  }

  lemma {:induction false} UntryTables(cfg: Config, m: Manager, slot: Slot)
    requires Shape(cfg, m) && slot in m.triedTable && m.triedTable[slot] in m.info
    ensures var r := Untry(m, slot);
            TriedPlaced(cfg, r.info, r.triedTable) && NewPlaced(cfg, r.info, r.newTable) &&
            Referenced(cfg, r.info, r.newTable)
  {
    var r := Untry(m, slot);
    forall k | k in r.info
      ensures TriedAt(cfg, r.info, r.triedTable, k) && RefsAt(cfg, r.info, r.newTable, k)
    {
      assert TriedAt(cfg, m.info, m.triedTable, k) && RefsAt(cfg, m.info, m.newTable, k);
    }
    forall s | s in r.triedTable
      ensures TriedSlotAt(cfg, r.info, r.triedTable, s)
    {
      assert TriedSlotAt(cfg, m.info, m.triedTable, s) && TriedSlotAt(cfg, m.info, m.triedTable, slot);
    }
    forall s | s in r.newTable
      ensures NewSlotAt(cfg, r.info, r.newTable, s)
    {
      assert NewSlotAt(cfg, m.info, m.newTable, s) && TriedSlotAt(cfg, m.info, m.triedTable, slot);
    }
  }

  lemma {:induction false} UntryKeeps(cfg: Config, m: Manager, slot: Slot, x: int, loose: set<int>)
    requires Shape(cfg, m) && Settled(m.info, loose) && Counted(m, x)
    requires slot in m.triedTable && m.triedTable[slot] in m.info
    ensures var r := Untry(m, slot);
            Shape(cfg, r) && Settled(r.info, loose + {m.triedTable[slot]}) && Counted(r, x - 1)
  {
    var r, id := Untry(m, slot), m.triedTable[slot];
    assert TriedSlotAt(cfg, m.info, m.triedTable, slot);
    SetTriedFrame(m, id, false);
    UntryTables(cfg, m, slot);
    forall k | k in r.info && k !in loose + {id}
      ensures SettledAt(r.info, k)
    {
      assert SettledAt(m.info, k);
    }
    assert NewIds(r.info) == NewIds(m.info) + {id} && TriedIds(m.info) == TriedIds(r.info) + {id};
  }

  lemma {:induction false} PutTriedTables(cfg: Config, m: Manager, id: int)
    requires Shape(cfg, m) && id in m.info && !m.info[id].tried
    requires m.info[id].refs == 0
    requires TriedSlot(cfg, m.info[id].addr.service) !in m.triedTable
    ensures var r := PutTried(m, id, TriedSlot(cfg, m.info[id].addr.service));
            TriedPlaced(cfg, r.info, r.triedTable) && NewPlaced(cfg, r.info, r.newTable) &&
            Referenced(cfg, r.info, r.newTable)
  {
    var r := PutTried(m, id, TriedSlot(cfg, m.info[id].addr.service));
    assert RefsAt(cfg, m.info, m.newTable, id);
    NotInTable(cfg, m.info, m.newTable, id);
    forall k | k in r.info
      ensures TriedAt(cfg, r.info, r.triedTable, k) && RefsAt(cfg, r.info, r.newTable, k)
    {
      assert TriedAt(cfg, m.info, m.triedTable, k) && RefsAt(cfg, m.info, m.newTable, k);
    }
    forall s | s in r.triedTable
      ensures TriedSlotAt(cfg, r.info, r.triedTable, s)
    {
      assert s in m.triedTable ==> TriedSlotAt(cfg, m.info, m.triedTable, s);
    }
    forall s | s in r.newTable
      ensures NewSlotAt(cfg, r.info, r.newTable, s)
    {
      assert NewSlotAt(cfg, m.info, m.newTable, s);
    }
  }

  lemma {:induction false} PutTriedKeeps(cfg: Config, m: Manager, id: int, x: int, loose: set<int>)
    requires Shape(cfg, m) && Settled(m.info, loose + {id}) && Counted(m, x)
    requires id in m.info && !m.info[id].tried && m.info[id].refs == 0
    requires TriedSlot(cfg, m.info[id].addr.service) !in m.triedTable
    ensures var r := PutTried(m, id, TriedSlot(cfg, m.info[id].addr.service));
            Shape(cfg, r) && Settled(r.info, loose) && Counted(r, x + 1)
  {
    var r := PutTried(m, id, TriedSlot(cfg, m.info[id].addr.service));
    SetTriedFrame(m, id, true);
    PutTriedTables(cfg, m, id);
    forall k | k in r.info && k !in loose
      ensures SettledAt(r.info, k)
    {
      assert k != id ==> SettledAt(m.info, k);
    }
    PutTriedCounts(m, id, TriedSlot(cfg, m.info[id].addr.service), x);
  }

  lemma {:induction false} PutTriedCounts(m: Manager, id: int, slot: Slot, x: int)
    requires id in m.info && !m.info[id].tried && Counted(m, x)
    ensures Counted(PutTried(m, id, slot), x + 1)
  {
    var r := PutTried(m, id, slot);
    assert NewIds(m.info) == NewIds(r.info) + {id};
    assert TriedIds(r.info) == TriedIds(m.info) + {id};
  }

  /** Evict: the occupant of a tried slot goes back to its new slot, whose
      occupant gives way.  A loose entry without references is not touched. */
  lemma {:induction false} EvictKeeps(cfg: Config, m: Manager, slot: Slot, x: int, loose: set<int>)
    requires Shape(cfg, m) && Settled(m.info, loose) && Counted(m, x) && slot in m.triedTable
    ensures Evict(cfg, m, slot).Some?
    ensures var r := Evict(cfg, m, slot).value;
            && Shape(cfg, r) && Settled(r.info, loose) && Counted(r, x)
            && r.triedTable == m.triedTable - {slot} && r.nextId == m.nextId
            && forall k | k in m.info && m.info[k].refs == 0 && !m.info[k].tried ::
                 k in r.info && r.info[k] == m.info[k].(pos := r.info[k].pos)
  {
    var id := m.triedTable[slot];
    assert TriedSlotAt(cfg, m.info, m.triedTable, slot);
    assert RefsAt(cfg, m.info, m.newTable, id);
    UntryKeeps(cfg, m, slot, x, loose);
    var u := Untry(m, slot);
    var home := HomeSlot(cfg, u.info[id]);
    ClearNewKeeps(cfg, u, home, x - 1, loose + {id});
    if home in u.newTable {
      Occupant(cfg, u, home);
    }
    var c := ClearNew(u, home).value;
    LinkKeeps(cfg, c, id, home.bucket, x - 1, loose);
  }

  /** Room is made in the tried table; an entry without a place stays as it is. */
  lemma {:induction false} MakeRoomKeeps(cfg: Config, u: Manager, slot: Slot, id: int)
    requires Shape(cfg, u) && Settled(u.info, {id}) && Counted(u, -1) && u.nextId >= 0
    requires id in u.info && u.info[id].refs == 0 && !u.info[id].tried
    ensures MakeRoom(cfg, u, slot).Some?
    ensures var e := MakeRoom(cfg, u, slot).value;
            && Shape(cfg, e) && Settled(e.info, {id}) && Counted(e, -1) && e.nextId >= 0
            && slot !in e.triedTable && id in e.info && e.info[id] == u.info[id].(pos := e.info[id].pos)
  {
    if slot in u.triedTable {
      EvictKeeps(cfg, u, slot, -1, {id});
    }
  }

  /** MakeTried: no assertion fires and the entry ends up tried. */
  lemma {:induction false} MakeTriedKeeps(cfg: Config, m: Manager, id: int)
    requires Structured(cfg, m) && id in m.info && !m.info[id].tried
    ensures MakeTried(cfg, m, id).Some?
    ensures var r := MakeTried(cfg, m, id).value;
            && Structured(cfg, r) && id in r.info
            && r.info[id] == m.info[id].(refs := 0, tried := true, pos := r.info[id].pos)
  {
    UnlinkKeeps(cfg, m, id, 0, {});
    var u := Unlink(m, id).(nNew := m.nNew - 1);
    assert Shape(cfg, u) && Settled(u.info, {id}) && Counted(u, -1);
    var slot := TriedSlot(cfg, m.info[id].addr.service);
    MakeRoomKeeps(cfg, u, slot, id);
    PutTriedKeeps(cfg, MakeRoom(cfg, u, slot).value, id, -1, {});
  }

  // ----- the operations

  /** Good of a known entry makes it tried, with the time of success given. */
  lemma {:induction false} GoodEntryKeeps(cfg: Config, m: Manager, id: int, time: int)
    requires Structured(cfg, m) && id in m.info
    ensures GoodEntry(cfg, m, id, time).Some?
    ensures var r := GoodEntry(cfg, m, id, time).value;
            && Structured(cfg, r) && id in r.info && r.info[id].addr == m.info[id].addr
            && r.info[id].tried && r.info[id].lastSuccess == r.info[id].lastTry == time
  {
    var i := m.info[id].(lastSuccess := time, lastTry := time, attempts := 0);
    assert RefsAt(cfg, m.info, m.newTable, id) && SettledAt(m.info, id);
    SetInfoKeeps(cfg, m, id, i, 0, {});
    var h := SetInfo(m, id, i);
    assert IndexedAt(h.info, h.ids, h.nextId, id);
    if !i.tried {
      MakeTriedKeeps(cfg, h, id);
    }
  }

  lemma {:induction false} GoodKeeps(cfg: Config, m: Manager, addr: Service, time: int)
    requires Structured(cfg, m)
    ensures Good(cfg, m, addr, time).Some?
    ensures var r := Good(cfg, m, addr, time).value;
            && Structured(cfg, r)
            && (Knows(m, addr) ==> Knows(r, addr) && r.info[r.ids[addr.addr]].tried &&
                                   r.info[r.ids[addr.addr]].lastSuccess == time)
  {
    var g := m.(lastGood := time);
    assert Structured(cfg, g);
    match Find(g, addr.addr)
    case None =>
    case Some(id) =>
      if g.info[id].addr.service == addr {
        GoodEntryKeeps(cfg, g, id, time);
        var r := GoodEntry(cfg, g, id, time).value;
        assert IndexedAt(r.info, r.ids, r.nextId, id);
      }
  }

  /** The exact service, port included, has an entry. */
  predicate Knows(m: Manager, s: Service) {
    s.addr in m.ids && m.ids[s.addr] in m.info && m.info[m.ids[s.addr]].addr.service == s
  }

  /** The slot is emptied and given to the entry. */
  lemma {:induction false} PlaceLinks(cfg: Config, m: Manager, id: int, b: nat)
    requires Shape(cfg, m) && Settled(m.info, {id}) && Counted(m, 0) && m.nextId >= 0 && b < NEW_BUCKET_COUNT
    requires id in m.info && !m.info[id].tried && m.info[id].refs < NEW_BUCKETS_PER_ADDRESS
    requires var slot := NewSlot(cfg, m.info[id].addr.service, b); slot !in m.newTable || m.newTable[slot] != id
    ensures var slot := NewSlot(cfg, m.info[id].addr.service, b);
            var c := ClearNew(m, slot);
            c.Some? && id in c.value.info && Structured(cfg, Link(c.value, id, slot, c.value.info[id].refs + 1))
  {
    var slot := NewSlot(cfg, m.info[id].addr.service, b);
    if slot in m.newTable {
      Occupant(cfg, m, slot);
    }
    assert RefsAt(cfg, m.info, m.newTable, id);
    ClearNewKeeps(cfg, m, slot, 0, {id});
    LinkKeeps(cfg, ClearNew(m, slot).value, id, b, 0, {});
  }

  lemma {:induction false} PlaceStays(cfg: Config, m: Manager, id: int)
    requires Shape(cfg, m) && Settled(m.info, {id}) && Counted(m, 0) && m.nextId >= 0
    requires id in m.info && m.info[id].refs != 0
    ensures Structured(cfg, m)
  {
    assert RefsAt(cfg, m.info, m.newTable, id);
    forall k | k in m.info
      ensures SettledAt(m.info, k)
    {
      assert k != id ==> SettledAt(m.info, k);
    }
  }

  lemma {:induction false} PlaceDrops(cfg: Config, m: Manager, id: int)
    requires Shape(cfg, m) && Settled(m.info, {id}) && Counted(m, 0) && m.nextId >= 0
    requires id in m.info && !m.info[id].tried && m.info[id].refs == 0
    ensures Delete(m, id).Some? && Structured(cfg, Delete(m, id).value)
  {
    DeleteKeeps(cfg, m, id, 0, {});
  }

  lemma {:induction false} PlaceNewKeeps(cfg: Config, m: Manager, id: int, source: NetAddr, now: int)
    requires Shape(cfg, m) && Settled(m.info, {id}) && Counted(m, 0) && m.nextId >= 0
    requires id in m.info && !m.info[id].tried && m.info[id].refs < NEW_BUCKETS_PER_ADDRESS
    ensures PlaceNew(cfg, m, id, source, now).Some?
    ensures Structured(cfg, PlaceNew(cfg, m, id, source, now).value)
  {
    var s := m.info[id].addr.service;
    var b := NewBucket(cfg, s, source);
    if NewSlot(cfg, s, b) in m.newTable {
      Occupant(cfg, m, NewSlot(cfg, s, b));
    }
    PlaceNewForms(cfg, m, id, source, now, b);
    PlacedKeeps(cfg, m, id, b, PlaceNew(cfg, m, id, source, now));
  }

  /** What can come of placing an entry in a bucket. */
  predicate PlaceForm(cfg: Config, m: Manager, id: int, b: nat, r: Option<Manager>)
    requires id in m.info
  {
    var slot := NewSlot(cfg, m.info[id].addr.service, b);
    if slot in m.newTable && m.newTable[slot] == id then r == Some(m)
    else
      var c := ClearNew(m, slot);
      || (c.Some? && id in c.value.info ==> r == Some(Link(c.value, id, slot, c.value.info[id].refs + 1)))
      || r == if m.info[id].refs == 0 then Delete(m, id) else Some(m)
  }

  lemma {:induction false} PlaceNewForms(cfg: Config, m: Manager, id: int, source: NetAddr, now: int, b: nat)
    requires id in m.info && b == NewBucket(cfg, m.info[id].addr.service, source)
    requires var slot := NewSlot(cfg, m.info[id].addr.service, b); slot in m.newTable ==> m.newTable[slot] in m.info
    ensures PlaceForm(cfg, m, id, b, PlaceNew(cfg, m, id, source, now))
  {
  }

  lemma {:induction false} PlacedKeeps(cfg: Config, m: Manager, id: int, b: nat, r: Option<Manager>)
    requires Shape(cfg, m) && Settled(m.info, {id}) && Counted(m, 0) && m.nextId >= 0 && b < NEW_BUCKET_COUNT
    requires id in m.info && !m.info[id].tried && m.info[id].refs < NEW_BUCKETS_PER_ADDRESS
    requires PlaceForm(cfg, m, id, b, r)
    ensures r.Some? && Structured(cfg, r.value)
  {
    var slot := NewSlot(cfg, m.info[id].addr.service, b);
    if slot in m.newTable && m.newTable[slot] == id {
      Occupant(cfg, m, slot);
      PlaceStays(cfg, m, id);
    } else {
      PlaceLinks(cfg, m, id, b);
      if m.info[id].refs == 0 {
        PlaceDrops(cfg, m, id);
      } else {
        PlaceStays(cfg, m, id);
      }
    }
  }

  lemma {:induction false} AddKnownKeeps(
    cfg: Config, m: Manager, id: int, addr: Address, source: NetAddr, penalty: int, now: int, random: nat)
    requires Structured(cfg, m) && id in m.info
    ensures AddKnown(cfg, m, id, addr, source, penalty, now, random).Some?
    ensures Structured(cfg, AddKnown(cfg, m, id, addr, source, penalty, now, random).value)
  {
    assert RefsAt(cfg, m.info, m.newTable, id);
    var i := Refreshed(m.info[id], addr, penalty, now);
    SetInfoKeeps(cfg, m, id, i, 0, {});
    var r := SetInfo(m, id, i);
    if WantsReference(i, addr, random) {
      assert Settled(r.info, {id});
      PlaceNewKeeps(cfg, r, id, source, now);
    }
  }

  lemma {:induction false} AddUnknownKeeps(
    cfg: Config, m: Manager, addr: Address, source: NetAddr, penalty: int, now: int)
    requires Structured(cfg, m) && addr.service.addr !in m.ids
    ensures AddUnknown(cfg, m, addr, source, penalty, now).Some?
    ensures Structured(cfg, AddUnknown(cfg, m, addr, source, penalty, now).value)
  {
    var a := addr.(time := Max(0, addr.time - penalty));
    CreateKeeps(cfg, m, a, source, 0, {});
    var n := Enrolled(m, addr, source, penalty);
    assert Shape(cfg, n) && Counted(n, 0) && Settled(n.info, {m.nextId});
    PlaceNewKeeps(cfg, n, m.nextId, source, now);
  }

  lemma {:induction false} AddKeeps(
    cfg: Config, m: Manager, addr: Address, source: NetAddr, penalty: int, now: int, random: nat)
    requires Structured(cfg, m)
    ensures Add(cfg, m, addr, source, penalty, now, random).Some?
    ensures Structured(cfg, Add(cfg, m, addr, source, penalty, now, random).value.0)
  {
    var p := if addr.service.addr == source then 0 else penalty;
    match Find(m, addr.service.addr)
    case Some(id) => AddKnownKeeps(cfg, m, id, addr, source, p, now, random);
    case None =>
      assert addr.service.addr in m.ids ==> AddrAt(m.info, m.ids, addr.service.addr);
      AddUnknownKeeps(cfg, m, addr, source, p, now);
  }

  lemma {:induction false} AttemptKeeps(cfg: Config, m: Manager, addr: Service, countFailure: bool, time: int)
    requires Structured(cfg, m)
    ensures Structured(cfg, Attempt(m, addr, countFailure, time))
  {
    match Find(m, addr.addr)
    case None =>
    case Some(id) =>
      var i := m.info[id];
      assert RefsAt(cfg, m.info, m.newTable, id);
      SetInfoKeeps(cfg, m, id, i.(lastTry := time, lastCount := time, attempts := i.attempts + 1), 0, {});
      SetInfoKeeps(cfg, m, id, i.(lastTry := time), 0, {});
  }

  lemma {:induction false} ConnectedKeeps(cfg: Config, m: Manager, addr: Service, time: int)
    requires Structured(cfg, m)
    ensures Structured(cfg, Connected(m, addr, time))
  {
    match Find(m, addr.addr)
    case None =>
    case Some(id) =>
      var i := m.info[id];
      assert RefsAt(cfg, m.info, m.newTable, id);
      SetInfoKeeps(cfg, m, id, i.(addr := i.addr.(time := time)), 0, {});
  }

  lemma {:induction false} SetServicesKeeps(cfg: Config, m: Manager, addr: Service, services: set<nat>)
    requires Structured(cfg, m)
    ensures Structured(cfg, SetServices(m, addr, services))
  {
    match Find(m, addr.addr)
    case None =>
    case Some(id) =>
      var i := m.info[id];
      assert RefsAt(cfg, m.info, m.newTable, id);
      SetInfoKeeps(cfg, m, id, i.(addr := i.addr.(services := services)), 0, {});
  }

  /** The addresses of good quality among the first `n` of the order. */
  function Picked(info: Infos, order: seq<int>, n: nat, now: int): seq<Address>
    requires n <= |order| && forall i | 0 <= i < n :: order[i] in info
  {
    if n == 0 then []
    else
      var rest := Picked(info, order, n - 1, now);
      var i := info[order[n - 1]];
      if IsTerrible(i, now) then rest else rest + [i.addr]
  }

  lemma {:induction false} PickedSame(info: Infos, order: seq<int>, info': Infos, order': seq<int>, n: nat, now: int)
    requires n <= |order| && n <= |order'|
    requires forall i | 0 <= i < n :: order[i] in info && order'[i] == order[i]
    requires Moved(info, info')
    ensures Picked(info, order, n, now) == Picked(info', order', n, now)
  {
    if n > 0 {
      PickedSame(info, order, info', order', n - 1, now);
      var id := order[n - 1];
      assert info'[id] == info[id].(pos := info'[id].pos);
    }
  }

  lemma {:induction false} OrderDistinct(
    info: Infos, ids: map<NetAddr, int>, nextId: int, order: seq<int>, i: nat, j: nat)
    requires Indexed(info, ids, nextId) && Ordered(info, order) && i < j < |order|
    ensures order[i] in info && order[j] in info
    ensures info[order[i]].addr.service.addr != info[order[j]].addr.service.addr
  {
    assert OrderAt(info, order, i) && OrderAt(info, order, j);
    assert IndexedAt(info, ids, nextId, order[i]) && IndexedAt(info, ids, nextId, order[j]);
  }

  /** Every picked address stands at some place of the order. */
  lemma {:induction false} PickedFrom(info: Infos, order: seq<int>, n: nat, now: int, k: nat) returns (i: nat)
    requires n <= |order| && forall j | 0 <= j < n :: order[j] in info
    requires k < |Picked(info, order, n, now)|
    ensures i < n && Picked(info, order, n, now)[k] == info[order[i]].addr && !IsTerrible(info[order[i]], now)
  {
    var rest := Picked(info, order, n - 1, now);
    if k < |rest| {
      i := PickedFrom(info, order, n - 1, now, k);
    } else {
      i := n - 1;
    }
  }

  lemma {:induction false} PickedDistinct(m: Manager, n: nat, now: int, k: nat, l: nat)
    requires Indexed(m.info, m.ids, m.nextId) && Ordered(m.info, m.order) && n <= |m.order|
    requires forall j | 0 <= j < n :: m.order[j] in m.info
    requires k < l < |Picked(m.info, m.order, n, now)|
    ensures var p := Picked(m.info, m.order, n, now); p[k].service.addr != p[l].service.addr
  {
    if l < |Picked(m.info, m.order, n - 1, now)| {
      PickedDistinct(m, n - 1, now, k, l);
    } else {
      var i := PickedFrom(m.info, m.order, n - 1, now, k);
      OrderDistinct(m.info, m.ids, m.nextId, m.order, i, n - 1);
    }
  }

  lemma {:induction false} AllOrdered(info: Infos, order: seq<int>)
    requires Ordered(info, order)
    ensures forall i | 0 <= i < |order| :: order[i] in info
  {
    forall i | 0 <= i < |order|
      ensures order[i] in info
    {
      assert OrderAt(info, order, i);
    }
  }

  /** One round of the loop in GetAddr_. */
  lemma {:induction false} GetAddrStep(cfg: Config, m: Manager, n: nat, j: nat, now: int)
    requires Structured(cfg, m) && n <= j < |m.order|
    requires forall i | 0 <= i < n :: m.order[i] in m.info
    ensures SwapRandom(m, n, j).Some?
    ensures var s := SwapRandom(m, n, j).value;
            && Structured(cfg, s) && Moved(m.info, s.info) && multiset(s.order) == multiset(m.order)
            && |s.order| == |m.order| && (forall i | 0 <= i < |s.order| :: s.order[i] in s.info)
            && Picked(m.info, m.order, n, now) == Picked(s.info, s.order, n, now)
  {
    SwapKeeps(cfg, m, n, j, 0, {});
    SwapOrdered(m, n, j);
    var s := SwapRandom(m, n, j).value;
    AllOrdered(s.info, s.order);
    PickedSame(m.info, m.order, s.info, s.order, n, now);
  }

  lemma {:induction false} MovedTrans(a: Infos, b: Infos, c: Infos)
    requires Moved(a, b) && Moved(b, c)
    ensures Moved(a, c)
  {
    forall id | id in a
      ensures c[id] == a[id].(pos := c[id].pos)
    {
      assert b[id] == a[id].(pos := b[id].pos) && c[id] == b[id].(pos := c[id].pos);
    }
  }

  /** At most the order of the entries is different. */
  predicate Shuffled(m: Manager, r: Manager) {
    r == m.(info := r.info, order := r.order)
  }

  /** `list` is what the first `k` of the shuffled order offer; it is full or
      the whole order was looked at. */
  ghost predicate Listed(cfg: Config, m: Manager, r: Manager, list: seq<Address>, k: nat, limit: nat, now: int) {
    && Structured(cfg, r) && Moved(m.info, r.info) && multiset(r.order) == multiset(m.order) && Shuffled(m, r)
    && |list| <= limit && k <= |r.order| && (|list| == limit || k == |r.order|)
    && (forall i | 0 <= i < k :: r.order[i] in r.info)
    && list == Picked(r.info, r.order, k, now)
  }

  lemma {:induction false} ListedTrans(
    cfg: Config, m: Manager, s: Manager, r: Manager, list: seq<Address>, k: nat, limit: nat, now: int)
    requires Moved(m.info, s.info) && multiset(s.order) == multiset(m.order) && Shuffled(m, s)
    requires Listed(cfg, s, r, list, k, limit, now)
    ensures Listed(cfg, m, r, list, k, limit, now)
  {
    MovedTrans(m.info, s.info, r.info);
  }

  lemma {:induction false} GetAddrUnfold(
    m: Manager, s: Manager, n: nat, limit: nat, random: nat -> nat, now: int, out: seq<Address>, next: seq<Address>,
    j: nat, res: Option<(Manager, seq<Address>)>)
    requires n < |m.order| && |out| < limit && j == DrawnPlace(random(n), n, |m.order|)
    requires SwapRandom(m, n, j) == Some(s)
    requires |s.order| == |m.order| && s.order[n] in s.info
    requires next == var i := s.info[s.order[n]]; if IsTerrible(i, now) then out else out + [i.addr]
    requires GetAddrFrom(s, n + 1, limit, random, now, next) == res
    ensures GetAddrFrom(m, n, limit, random, now, out) == res
  {
  }

  lemma {:induction false} GetAddrSwaps(m: Manager, n: nat, limit: nat, random: nat -> nat, now: int, out: seq<Address>)
    requires n < |m.order| && |out| < limit && GetAddrFrom(m, n, limit, random, now, out).Some?
    ensures var s := SwapRandom(m, n, DrawnPlace(random(n), n, |m.order|));
            s.Some? && |s.value.order| == |m.order| && s.value.order[n] in s.value.info
  {
  }

  lemma {:induction false} GetAddrStops(m: Manager, n: nat, limit: nat, random: nat -> nat, now: int, out: seq<Address>)
    requires n >= |m.order| || |out| >= limit
    ensures GetAddrFrom(m, n, limit, random, now, out) == Some((m, out))
  {
  }

  /** The first `n` places of the order have been drawn and listed. */
  ghost predicate Drawn(cfg: Config, m: Manager, n: nat, limit: nat, now: int, out: seq<Address>) {
    Structured(cfg, m) && n <= |m.order| && |out| <= limit && (forall i | 0 <= i < n :: m.order[i] in m.info) &&
    out == Picked(m.info, m.order, n, now)
  }

  lemma {:induction false} DrawNext(
    cfg: Config, m: Manager, n: nat, limit: nat, random: nat -> nat, now: int, out: seq<Address>)
    returns (s: Manager, next: seq<Address>)
    requires Drawn(cfg, m, n, limit, now, out) && n < |m.order| && |out| < limit
    ensures Drawn(cfg, s, n + 1, limit, now, next) && |s.order| == |m.order|
    ensures Moved(m.info, s.info) && multiset(s.order) == multiset(m.order) && Shuffled(m, s)
    ensures GetAddrFrom(m, n, limit, random, now, out) == GetAddrFrom(s, n + 1, limit, random, now, next)
  {
    var j := DrawnPlace(random(n), n, |m.order|);
    GetAddrStep(cfg, m, n, j, now);
    s := SwapRandom(m, n, j).value;
    var i := s.info[s.order[n]];
    next := if IsTerrible(i, now) then out else out + [i.addr];
    GetAddrUnfold(m, s, n, limit, random, now, out, next, j, GetAddrFrom(s, n + 1, limit, random, now, next));
  }

  lemma {:induction false} GetAddrFromKeeps(
    cfg: Config, m: Manager, n: nat, limit: nat, random: nat -> nat, now: int, out: seq<Address>)
    returns (k: nat, r: Manager, list: seq<Address>)
    requires Drawn(cfg, m, n, limit, now, out)
    ensures GetAddrFrom(m, n, limit, random, now, out) == Some((r, list))
    ensures Listed(cfg, m, r, list, k, limit, now)
    decreases |m.order| - n
  {
    if n >= |m.order| || |out| >= limit {
      k, r, list := n, m, out;
      GetAddrStops(m, n, limit, random, now, out);
    } else {
      var s, next := DrawNext(cfg, m, n, limit, random, now, out);
      k, r, list := GetAddrFromKeeps(cfg, s, n + 1, limit, random, now, next);
      ListedTrans(cfg, m, s, r, list, k, limit, now);
    }
  }

  /** GetAddr_: a consistent manager stays so; the list holds distinct known
      addresses of good quality, is not longer than the limit, and if shorter
      holds all of them. */
  lemma {:induction false} GetAddrKeeps(cfg: Config, m: Manager, random: nat -> nat, now: int)
    requires Structured(cfg, m)
    ensures GetAddr(m, random, now).Some?
    ensures var (r, list) := GetAddr(m, random, now).value;
            && Structured(cfg, r) && Moved(m.info, r.info) && multiset(r.order) == multiset(m.order) && Shuffled(m, r)
            && |list| <= GetAddrLimit(m)
            && (forall a | a in list ::
                  exists id | id in m.info :: m.info[id].addr == a && !IsTerrible(m.info[id], now))
            && (forall i, j | 0 <= i < j < |list| :: list[i].service.addr != list[j].service.addr)
            && (|list| < GetAddrLimit(m) ==>
                  forall id | id in m.info && !IsTerrible(m.info[id], now) :: m.info[id].addr in list)
  {
    var k, r, list := GetAddrFromKeeps(cfg, m, 0, GetAddrLimit(m), random, now, []);
    forall a | a in list
      ensures exists id | id in m.info :: m.info[id].addr == a && !IsTerrible(m.info[id], now)
    {
      var l :| 0 <= l < |list| && list[l] == a;
      var i := PickedFrom(r.info, r.order, k, now, l);
      var id := r.order[i];
      assert r.info[id] == m.info[id].(pos := r.info[id].pos);
    }
    forall i, j | 0 <= i < j < |list|
      ensures list[i].service.addr != list[j].service.addr
    {
      PickedDistinct(r, k, now, i, j);
    }
    if |list| < GetAddrLimit(m) {
      forall id | id in m.info && !IsTerrible(m.info[id], now)
        ensures m.info[id].addr in list
      {
        assert PosAt(r.info, r.order, id);
        assert r.info[id] == m.info[id].(pos := r.info[id].pos);
        PickedAll(r.info, r.order, k, now, r.info[id].pos);
      }
    }
  }

  lemma {:induction false} PickedAll(info: Infos, order: seq<int>, n: nat, now: int, i: nat)
    requires i < n <= |order| && forall j | 0 <= j < n :: order[j] in info
    requires !IsTerrible(info[order[i]], now)
    ensures info[order[i]].addr in Picked(info, order, n, now)
  {
    if i < n - 1 {
      PickedAll(info, order, n - 1, now, i);
    }
  }

  // ----- times

  /** Entry `id` was there before, with the same times, and has not become tried. */
  predicate OlderAt(info: Infos, info': Infos, id: int)
    requires id in info'
  {
    id in info && info'[id].lastTry == info[id].lastTry && info'[id].lastSuccess == info[id].lastSuccess &&
    (info'[id].tried ==> info[id].tried)
  }

  ghost predicate Older(info: Infos, info': Infos) {
    forall id {:trigger OlderAt(info, info', id)} | id in info' :: OlderAt(info, info', id)
  }

  lemma {:induction false} OlderTimed(info: Infos, info': Infos)
    requires Timed(info) && Older(info, info')
    ensures Timed(info')
  {
    forall id | id in info'
      ensures TimesAt(info', id)
    {
      assert OlderAt(info, info', id) && TimesAt(info, id);
    }
  }

  lemma {:induction false} OlderTrans(a: Infos, b: Infos, c: Infos)
    requires Older(a, b) && Older(b, c)
    ensures Older(a, c)
  {
    forall id | id in c
      ensures OlderAt(a, c, id)
    {
      assert OlderAt(b, c, id) && OlderAt(a, b, id);
    }
  }

  lemma {:induction false} DeleteOlder(m: Manager, id: int)
    requires Delete(m, id).Some?
    ensures Older(m.info, Delete(m, id).value.info)
  {
    var s := SwapRandom(m, m.info[id].pos, |m.order| - 1).value;
    assert Delete(m, id).value.info == s.info - {id};
  }

  lemma {:induction false} ClearNewOlder(m: Manager, slot: Slot)
    requires ClearNew(m, slot).Some?
    ensures Older(m.info, ClearNew(m, slot).value.info)
  {
    if slot in m.newTable {
      var u := Unref(m, slot);
      if u.info[m.newTable[slot]].refs == 0 {
        DeleteOlder(u, m.newTable[slot]);
        OlderTrans(m.info, u.info, Delete(u, m.newTable[slot]).value.info);
      }
    }
  }

  /** A slot is cleared and given to an entry. */
  lemma {:induction false} ReplaceOlder(m: Manager, slot: Slot, c: Manager, id: int, refs: int)
    requires ClearNew(m, slot) == Some(c) && id in c.info
    ensures Older(m.info, Link(c, id, slot, refs).info)
  {
    ClearNewOlder(m, slot);
    OlderTrans(m.info, c.info, Link(c, id, slot, refs).info);
  }

  lemma {:induction false} MakeRoomOlder(cfg: Config, m: Manager, slot: Slot)
    requires MakeRoom(cfg, m, slot).Some?
    ensures Older(m.info, MakeRoom(cfg, m, slot).value.info)
  {
    if slot in m.triedTable {
      var id := m.triedTable[slot];
      var u := Untry(m, slot);
      var home := HomeSlot(cfg, u.info[id]);
      var c := ClearNew(u, home).value;
      ReplaceOlder(u, home, c, id, 1);
      OlderTrans(m.info, u.info, Link(c, id, home, 1).info);
    }
  }

  lemma {:induction false} MakeTriedTimed(cfg: Config, m: Manager, id: int)
    requires id in m.info && MakeTried(cfg, m, id).Some? && Timed(m.info) && m.info[id].lastSuccess > 0
    ensures Timed(MakeTried(cfg, m, id).value.info)
  {
    var u := Unlink(m, id).(nNew := m.nNew - 1);
    var slot := TriedSlot(cfg, m.info[id].addr.service);
    MakeRoomOlder(cfg, u, slot);
    var e := MakeRoom(cfg, u, slot).value;
    OlderTrans(m.info, u.info, e.info);
    OlderTimed(m.info, e.info);
    assert OlderAt(m.info, e.info, id);
    forall k | k in PutTried(e, id, slot).info
      ensures TimesAt(PutTried(e, id, slot).info, k)
    {
      assert TimesAt(e.info, k);
    }
  }

  lemma {:induction false} PlaceNewCases(
    cfg: Config, m: Manager, id: int, source: NetAddr, now: int, slot: Slot, c: Option<Manager>, r: Manager)
    requires id in m.info && PlaceNew(cfg, m, id, source, now) == Some(r) && c == ClearNew(m, slot)
    requires slot == NewSlot(cfg, m.info[id].addr.service, NewBucket(cfg, m.info[id].addr.service, source))
    ensures r == m || Delete(m, id) == Some(r) ||
            (c.Some? && id in c.value.info && r == Link(c.value, id, slot, c.value.info[id].refs + 1))
  {
  }

  lemma {:induction false} PlaceNewOlder(cfg: Config, m: Manager, id: int, source: NetAddr, now: int, r: Manager)
    requires id in m.info && PlaceNew(cfg, m, id, source, now) == Some(r)
    ensures Older(m.info, r.info)
  {
    var slot := NewSlot(cfg, m.info[id].addr.service, NewBucket(cfg, m.info[id].addr.service, source));
    var c := ClearNew(m, slot);
    PlaceNewCases(cfg, m, id, source, now, slot, c, r);
    PlacedOlder(m, id, slot, c, r);
  }

  lemma {:induction false} PlacedOlder(m: Manager, id: int, slot: Slot, c: Option<Manager>, r: Manager)
    requires c == ClearNew(m, slot)
    requires r == m || Delete(m, id) == Some(r) ||
             (c.Some? && id in c.value.info && r == Link(c.value, id, slot, c.value.info[id].refs + 1))
    ensures Older(m.info, r.info)
  {
    if Delete(m, id) == Some(r) {
      DeleteOlder(m, id);
    } else if r != m {
      ReplaceOlder(m, slot, c.value, id, c.value.info[id].refs + 1);
    }
  }

  /** Setting the times of one entry to proper ones. */
  lemma {:induction false} SetInfoTimed(m: Manager, id: int, i: Info)
    requires Timed(m.info) && i.lastTry >= 0 && i.lastSuccess >= 0 && (i.tried ==> i.lastSuccess > 0)
    ensures Timed(SetInfo(m, id, i).info)
  {
    var r := SetInfo(m, id, i);
    forall k | k in r.info
      ensures TimesAt(r.info, k)
    {
      assert k != id ==> TimesAt(m.info, k);
    }
  }

  lemma {:induction false} AddTimed(
    cfg: Config, m: Manager, addr: Address, source: NetAddr, penalty: int, now: int, random: nat)
    requires Timed(m.info) && Add(cfg, m, addr, source, penalty, now, random).Some?
    ensures Timed(Add(cfg, m, addr, source, penalty, now, random).value.0.info)
  {
    var p := if addr.service.addr == source then 0 else penalty;
    match Find(m, addr.service.addr)
    case Some(id) =>
      var i := Refreshed(m.info[id], addr, p, now);
      assert TimesAt(m.info, id);
      SetInfoTimed(m, id, i);
      var r := SetInfo(m, id, i);
      if WantsReference(i, addr, random) && PlaceNew(cfg, r, id, source, now).Some? {
        var w := PlaceNew(cfg, r, id, source, now).value;
        PlaceNewOlder(cfg, r, id, source, now, w);
        OlderTimed(r.info, w.info);
      }
    case None =>
      var n := Enrolled(m, addr, source, p);
      SetInfoTimed(m, m.nextId, n.info[m.nextId]);
      if PlaceNew(cfg, n, m.nextId, source, now).Some? {
        var w := PlaceNew(cfg, n, m.nextId, source, now).value;
        PlaceNewOlder(cfg, n, m.nextId, source, now, w);
        OlderTimed(n.info, w.info);
      }
  }

  /** Good keeps a manager consistent if and only if the service is unknown or
      the time is positive: a tried entry needs a time of success. */
  lemma {:induction false} GoodConsistentIff(cfg: Config, m: Manager, addr: Service, time: int)
    requires Inv(cfg, m)
    ensures Good(cfg, m, addr, time).Some?
    ensures Inv(cfg, Good(cfg, m, addr, time).value) <==> !Knows(m, addr) || time > 0
  {
    GoodKeeps(cfg, m, addr, time);
    var g, r := m.(lastGood := time), Good(cfg, m, addr, time).value;
    if !Knows(m, addr) {
      assert r == g;
    } else if time > 0 {
      var id := m.ids[addr.addr];
      assert TimesAt(m.info, id);
      var i := g.info[id].(lastSuccess := time, lastTry := time, attempts := 0);
      SetInfoTimed(g, id, i);
      var h := SetInfo(g, id, i);
      if !i.tried && MakeTried(cfg, h, id).Some? {
        MakeTriedTimed(cfg, h, id);
      }
    } else {
      assert !TimesAt(r.info, r.ids[addr.addr]);
    }
  }

  /** Attempt does if and only if the service is unknown or the time is not
      before the epoch. */
  lemma {:induction false} AttemptConsistentIff(cfg: Config, m: Manager, addr: Service, countFailure: bool, time: int)
    requires Inv(cfg, m)
    ensures Inv(cfg, Attempt(m, addr, countFailure, time)) <==> !Knows(m, addr) || time >= 0
  {
    AttemptKeeps(cfg, m, addr, countFailure, time);
    if Knows(m, addr) {
      var r, id := Attempt(m, addr, countFailure, time), m.ids[addr.addr];
      assert TimesAt(m.info, id);
      assert r == SetInfo(m, id, r.info[id]) && r.info[id].lastTry == time;
      if time >= 0 {
        SetInfoTimed(m, id, r.info[id]);
      } else {
        assert !TimesAt(r.info, id);
      }
    }
  }

  lemma {:induction false} MovedTimed(info: Infos, info': Infos)
    requires Timed(info) && Moved(info, info')
    ensures Timed(info')
  {
    forall id | id in info'
      ensures TimesAt(info', id)
    {
      assert info'[id] == info[id].(pos := info'[id].pos) && TimesAt(info, id);
    }
  }

  lemma {:induction false} ConnectedTimed(m: Manager, addr: Service, time: int, services: set<nat>)
    requires Timed(m.info)
    ensures Timed(Connected(m, addr, time).info) && Timed(SetServices(m, addr, services).info)
  {
    match Find(m, addr.addr)
    case None =>
    case Some(id) =>
      var i := m.info[id];
      assert TimesAt(m.info, id);
      SetInfoTimed(m, id, i.(addr := i.addr.(time := time)));
      SetInfoTimed(m, id, i.(addr := i.addr.(services := services)));
  }

  // ----- whole runs

  datatype Op =
    | OpAdd(addr: Address, source: NetAddr, penalty: int, now: int, random: nat)
    | OpGood(service: Service, time: int)
    | OpAttempt(service: Service, countFailure: bool, time: int)
    | OpConnected(service: Service, time: int)
    | OpServices(service: Service, services: set<nat>)
    | OpGetAddr(choose: nat -> nat, now: int)

  /** A known service is given a proper time: Good_ a positive one, Attempt_ none
      before the epoch. */
  predicate Fitting(m: Manager, op: Op) {
    match op
    case OpGood(s, time) => !Knows(m, s) || time > 0
    case OpAttempt(s, _, time) => !Knows(m, s) || time >= 0
    case _ => true
  }

  /** The same without a look at the manager. */
  predicate Timely(op: Op) {
    match op
    case OpGood(_, time) => time > 0
    case OpAttempt(_, _, time) => time >= 0
    case _ => true
  }

  /** `None` once an assertion has fired. */
  function Apply(cfg: Config, m: Manager, op: Op): Option<Manager> {
    match op
    case OpAdd(addr, source, penalty, now, random) =>
      var (r, _) :- Add(cfg, m, addr, source, penalty, now, random);
      Some(r)
    case OpGood(s, time) => Good(cfg, m, s, time)
    case OpAttempt(s, count, time) => Some(Attempt(m, s, count, time))
    case OpConnected(s, time) => Some(Connected(m, s, time))
    case OpServices(s, services) => Some(SetServices(m, s, services))
    case OpGetAddr(choose, now) =>
      var (r, _) :- GetAddr(m, choose, now);
      Some(r)
  }

  function Run(cfg: Config, m: Manager, ops: seq<Op>): Option<Manager>
    decreases |ops|
  {
    if ops == [] then Some(m)
    else
      var r :- Apply(cfg, m, ops[0]);
      Run(cfg, r, ops[1..])
  }

  /** Whatever the times: no assertion fires and the structure is kept. */
  lemma {:induction false} ApplyKeeps(cfg: Config, m: Manager, op: Op)
    requires Structured(cfg, m)
    ensures Apply(cfg, m, op).Some? && Structured(cfg, Apply(cfg, m, op).value)
  {
    match op
    case OpAdd(addr, source, penalty, now, random) => AddKeeps(cfg, m, addr, source, penalty, now, random);
    case OpGood(s, time) => GoodKeeps(cfg, m, s, time);
    case OpAttempt(s, count, time) => AttemptKeeps(cfg, m, s, count, time);
    case OpConnected(s, time) => ConnectedKeeps(cfg, m, s, time);
    case OpServices(s, services) => SetServicesKeeps(cfg, m, s, services);
    case OpGetAddr(choose, now) => GetAddrKeeps(cfg, m, choose, now);
  }

  /** An operation keeps a manager consistent if and only if its time is fitting. */
  lemma {:induction false} ApplyConsistentIff(cfg: Config, m: Manager, op: Op)
    requires Inv(cfg, m)
    ensures Apply(cfg, m, op).Some?
    ensures Inv(cfg, Apply(cfg, m, op).value) <==> Fitting(m, op)
  {
    ApplyKeeps(cfg, m, op);
    match op
    case OpAdd(addr, source, penalty, now, random) => AddTimed(cfg, m, addr, source, penalty, now, random);
    case OpGood(s, time) => GoodConsistentIff(cfg, m, s, time);
    case OpAttempt(s, count, time) => AttemptConsistentIff(cfg, m, s, count, time);
    case OpConnected(s, time) => ConnectedTimed(m, s, time, {});
    case OpServices(s, services) => ConnectedTimed(m, s, 0, services);
    case OpGetAddr(choose, now) =>
      GetAddrKeeps(cfg, m, choose, now);
      MovedTimed(m.info, Apply(cfg, m, op).value.info);
  }

  lemma {:induction false} RunKeeps(cfg: Config, m: Manager, ops: seq<Op>)
    requires Structured(cfg, m)
    ensures Run(cfg, m, ops).Some? && Structured(cfg, Run(cfg, m, ops).value)
    decreases |ops|
  {
    if ops != [] {
      ApplyKeeps(cfg, m, ops[0]);
      RunKeeps(cfg, Apply(cfg, m, ops[0]).value, ops[1..]);
    }
  }

  lemma {:induction false} TimelyRun(cfg: Config, m: Manager, ops: seq<Op>)
    requires Inv(cfg, m) && forall i | 0 <= i < |ops| :: Timely(ops[i])
    ensures Run(cfg, m, ops).Some? && Inv(cfg, Run(cfg, m, ops).value)
    decreases |ops|
  {
    if ops != [] {
      assert Timely(ops[0]);
      ApplyConsistentIff(cfg, m, ops[0]);
      TimelyRun(cfg, Apply(cfg, m, ops[0]).value, ops[1..]);
    }
  }

  /** From a new manager, no run of operations meets a failing assertion,
      whatever the times, and indexes, tables and counters agree at its end.  If
      the times are proper, it ends consistent. */
  lemma {:induction false} EveryRunConsistent(cfg: Config, ops: seq<Op>)
    ensures Run(cfg, EMPTY, ops).Some? && Structured(cfg, Run(cfg, EMPTY, ops).value)
    ensures (forall i | 0 <= i < |ops| :: Timely(ops[i])) ==> Inv(cfg, Run(cfg, EMPTY, ops).value)
  {
    EmptyConsistent(cfg);
    RunKeeps(cfg, EMPTY, ops);
    if forall i | 0 <= i < |ops| :: Timely(ops[i]) {
      TimelyRun(cfg, EMPTY, ops);
    }
  }

  /** The first address of a new manager gets an entry in one bucket. */
  lemma {:induction false} FirstAdd(
    cfg: Config, addr: Address, source: NetAddr, penalty: int, now: int, random: nat) returns (m: Manager)
    requires cfg.routable(addr.service.addr)
    ensures Add(cfg, EMPTY, addr, source, penalty, now, random) == Some((m, true))
    ensures m.info.Keys == {0} && m.info[0].refs == 1 && m.info[0].addr.service == addr.service
    ensures m.ids == map[addr.service.addr := 0]
  {
    var p := if addr.service.addr == source then 0 else penalty;
    var n := Enrolled(EMPTY, addr, source, p);
    var slot := NewSlot(cfg, addr.service, NewBucket(cfg, addr.service, source));
    assert ClearNew(n, slot) == Some(n);
    m := Link(n, 0, slot, 1);
    assert PlaceNew(cfg, n, 0, source, now) == Some(m);
  }

  /** One address, and Good_ for it at time 0: the entry is tried without a time
      of success. */
  lemma {:induction false} GoodAtZeroExample(
    cfg: Config, addr: Address, source: NetAddr, penalty: int, now: int, random: nat)
    requires cfg.routable(addr.service.addr)
    ensures var r := Run(cfg, EMPTY, [OpAdd(addr, source, penalty, now, random), OpGood(addr.service, 0)]);
            r.Some? && !Inv(cfg, r.value)
  {
    var add, good := OpAdd(addr, source, penalty, now, random), OpGood(addr.service, 0);
    var m := FirstAdd(cfg, addr, source, penalty, now, random);
    assert [add, good][1..] == [good] && [good][1..] == [];
    EmptyConsistent(cfg);
    ApplyConsistentIff(cfg, EMPTY, add);
    GoodConsistentIff(cfg, m, addr.service, 0);
    var r := Good(cfg, m, addr.service, 0).value;
    assert Run(cfg, r, []) == Some(r);
    assert Run(cfg, m, [good]) == Some(r);
  }

  lemma {:induction false} EmptyConsistent(cfg: Config)
    ensures Inv(cfg, EMPTY)
  {
    assert NewIds(EMPTY.info) == {} && TriedIds(EMPTY.info) == {};
  }
}
