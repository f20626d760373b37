/**
  What the operations of the address manager do to an entry, to the tables and to
  the other entries, from any manager whose structure is sound (src/addrman.cpp,
  src/addrman.h).  Times are in seconds and limits in numbers.
 */
module AddrManLaws {
  import opened Common
  import opened AddrMan
  import opened AddrManInv
  import Limbs

  // ----- quality

  /** An entry is terrible unless tried in the last minute, and if one of these
      holds: it is dated more than ten minutes ahead, it has no time or one more
      than 30 days back, it was tried three times without any success, or ten
      times since a success more than a week back. */
  lemma {:induction false} TerribleIff(i: Info, now: int)
    ensures IsTerrible(i, now) <==>
            (i.lastTry == 0 || now - i.lastTry > 60) &&
            (i.addr.time - now > 600 || i.addr.time == 0 || now - i.addr.time > 2592000 ||
             (i.attempts >= 3 && i.lastSuccess == 0) ||
             (i.attempts >= 10 && now - i.lastSuccess > 604800))
  {
  }

  // ----- what stays

  /** Nothing about the entry has changed but its place in the order. */
  predicate Untouched(m: Manager, r: Manager, k: int)
    requires k in m.info
  {
    k in r.info && r.info[k] == m.info[k].(pos := r.info[k].pos)
  }

  /** The entry that a slot holds, unless it is `id`. */
  function Occupier(table: Table, slot: Slot, id: int): Option<int> {
    if slot in table && table[slot] != id then Some(table[slot]) else None
  }

  /** An entry gives up one reference, and goes with its last. */
  predicate GivesWay(m: Manager, r: Manager, k: int)
    requires k in m.info
  {
    if m.info[k].refs == 1 then k !in r.info
    else k in r.info && r.info[k] == m.info[k].(refs := m.info[k].refs - 1, pos := r.info[k].pos)
  }

  /** All entries of `m` but `id` stay, except that `out`, if any, gives way; and
      no entry but `id` is new. */
  ghost predicate OthersStay(m: Manager, r: Manager, id: int, out: Option<int>) {
    && (forall k {:trigger k in r.info} | k in r.info :: k == id || k in m.info)
    && (forall k {:trigger Untouched(m, r, k)} | k in m.info && k != id && out != Some(k) :: Untouched(m, r, k))
    && (out.Some? && out.value in m.info ==> GivesWay(m, r, out.value))
  }

  // ----- clearing a slot

  lemma {:induction false} DeleteStays(cfg: Config, m: Manager, id: int, x: int, loose: set<int>)
    requires Shape(cfg, m) && Settled(m.info, loose + {id}) && Counted(m, x)
    requires id in m.info && !m.info[id].tried && m.info[id].refs == 0
    ensures Delete(m, id).Some?
    ensures var r := Delete(m, id).value;
            && id !in r.info && r.info.Keys == m.info.Keys - {id}
            && (forall k | k in m.info && k != id :: Untouched(m, r, k))
            && r.newTable == m.newTable && r.triedTable == m.triedTable
            && r.nextId == m.nextId && r.lastGood == m.lastGood
  {
    DeleteKeeps(cfg, m, id, x, loose);
  }

  lemma {:induction false} ClearNewStays(cfg: Config, m: Manager, slot: Slot, x: int, loose: set<int>, id: int)
    requires Shape(cfg, m) && Settled(m.info, loose) && Counted(m, x) && id in m.info
    requires slot in m.newTable ==> m.newTable[slot] != id
    ensures ClearNew(m, slot).Some?
    ensures var r := ClearNew(m, slot).value;
            && Untouched(m, r, id) && OthersStay(m, r, id, Occupier(m.newTable, slot, id))
            && r.newTable == m.newTable - {slot} && r.triedTable == m.triedTable
            && r.nextId == m.nextId && r.lastGood == m.lastGood
  {
    if slot in m.newTable {
      Occupant(cfg, m, slot);
      UnrefKeeps(cfg, m, slot, x, loose);
      var u, k := Unref(m, slot), m.newTable[slot];
      if u.info[k].refs == 0 {
        DeleteStays(cfg, u, k, x, loose);
      }
    } else {
      assert m.newTable - {slot} == m.newTable;
    }
  }

  /** A slot gets an entry instead of the one it held. */
  lemma {:induction false} ReplaceStays(
    cfg: Config, m: Manager, slot: Slot, x: int, loose: set<int>, id: int, refs: int, r: Manager)
    requires Shape(cfg, m) && Settled(m.info, loose) && Counted(m, x) && id in m.info
    requires slot in m.newTable ==> m.newTable[slot] != id
    requires ClearNew(m, slot).Some? && id in ClearNew(m, slot).value.info
    requires r == Link(ClearNew(m, slot).value, id, slot, refs).(nNew := r.nNew)
    ensures id in r.info && r.info[id] == m.info[id].(refs := refs, pos := r.info[id].pos)
    ensures OthersStay(m, r, id, Occupier(m.newTable, slot, id))
    ensures r.newTable == m.newTable[slot := id] && r.triedTable == m.triedTable
    ensures r.nextId == m.nextId && r.lastGood == m.lastGood
  {
    ClearNewStays(cfg, m, slot, x, loose, id);
    var c := ClearNew(m, slot).value;
    LinkStays(m, c, r, slot, id, Occupier(m.newTable, slot, id));
    assert (m.newTable - {slot})[slot := id] == m.newTable[slot := id];
  }

  lemma {:induction false} LinkStays(m: Manager, c: Manager, r: Manager, slot: Slot, id: int, out: Option<int>)
    requires OthersStay(m, c, id, out) && id in m.info && id in c.info && out != Some(id)
    requires id in r.info && r.info == c.info[id := r.info[id]]
    ensures OthersStay(m, r, id, out)
  {
    forall k | k in m.info && k != id && out != Some(k)
      ensures Untouched(m, r, k)
    {
      assert Untouched(m, c, k);
    }
  }

  // ----- Add

  /** The slot in the new table for an address heard from `source`. */
  function SlotFor(cfg: Config, s: Service, source: NetAddr): Slot {
    NewSlot(cfg, s, NewBucket(cfg, s, source))
  }

  /** The slot is free, or its entry is terrible, or it has other references while
      the newcomer has none. */
  predicate MayEnter(m: Manager, slot: Slot, first: bool, now: int) {
    slot in m.newTable ==>
      m.newTable[slot] in m.info &&
      (IsTerrible(m.info[m.newTable[slot]], now) || (first && m.info[m.newTable[slot]].refs > 1))
  }

  lemma {:induction false} PlaceNewEnters(cfg: Config, m: Manager, id: int, source: NetAddr, now: int, r: Manager)
    requires Shape(cfg, m) && Settled(m.info, {id}) && Counted(m, 0) && m.nextId >= 0
    requires id in m.info && !m.info[id].tried && m.info[id].refs < NEW_BUCKETS_PER_ADDRESS
    requires var slot := SlotFor(cfg, m.info[id].addr.service, source);
             MayEnter(m, slot, m.info[id].refs == 0, now) && !(slot in m.newTable && m.newTable[slot] == id)
    requires PlaceNew(cfg, m, id, source, now) == Some(r)
    ensures var slot := SlotFor(cfg, m.info[id].addr.service, source);
            && id in r.info && r.info[id] == m.info[id].(refs := m.info[id].refs + 1, pos := r.info[id].pos)
            && OthersStay(m, r, id, Occupier(m.newTable, slot, id))
            && r.newTable == m.newTable[slot := id] && r.triedTable == m.triedTable
            && r.nextId == m.nextId && r.lastGood == m.lastGood
  {
    var slot := SlotFor(cfg, m.info[id].addr.service, source);
    ClearNewStays(cfg, m, slot, 0, {id}, id);
    var c := ClearNew(m, slot).value;
    assert Untouched(m, c, id);
    assert r == Link(c, id, slot, c.info[id].refs + 1);
    ReplaceStays(cfg, m, slot, 0, {id}, id, m.info[id].refs + 1, r);
  }

  /** An entry with references stays as it is where it may not enter. */
  lemma {:induction false} PlaceNewStays(cfg: Config, m: Manager, id: int, source: NetAddr, now: int, r: Manager)
    requires id in m.info && m.info[id].refs != 0 && PlaceNew(cfg, m, id, source, now) == Some(r)
    requires var slot := SlotFor(cfg, m.info[id].addr.service, source);
             (slot in m.newTable && m.newTable[slot] == id) || !MayEnter(m, slot, false, now)
    ensures r == m
  {
  }

  /** One without is gone. */
  lemma {:induction false} PlaceNewDrops(cfg: Config, m: Manager, id: int, source: NetAddr, now: int, r: Manager)
    requires Shape(cfg, m) && Settled(m.info, {id}) && Counted(m, 0)
    requires id in m.info && !m.info[id].tried && m.info[id].refs == 0 && PlaceNew(cfg, m, id, source, now) == Some(r)
    requires var slot := SlotFor(cfg, m.info[id].addr.service, source);
             !MayEnter(m, slot, true, now) && m.newTable[slot] != id
    ensures id !in r.info && r.info.Keys == m.info.Keys - {id}
    ensures forall k | k in m.info && k != id :: Untouched(m, r, k)
    ensures r.newTable == m.newTable && r.triedTable == m.triedTable
    ensures r.nextId == m.nextId && r.lastGood == m.lastGood
  {
    DeleteStays(cfg, m, id, 0, {});
  }

  /** The time of a known address after it was announced again: the announced one
      less the penalty, if it is more than an hour, or a day for an address not
      seen within the last day, and the penalty ahead of the old one. */
  function TimeAfter(was: int, announced: int, penalty: int, now: int): int {
    if announced == 0 then was
    else if was == 0 || announced - was > (if now - announced < 86400 then 3600 else 86400) + penalty then
      if announced > penalty then announced - penalty else 0
    else was
  }

  /** Whether the entry is given one more reference: the announcement is still
      news, there is room for one, chance allows it, and the slot is to be had. */
  predicate Gains(cfg: Config, m: Manager, id: int, time: int, announced: int, source: NetAddr, now: int, random: nat)
    requires id in m.info
  {
    var i := m.info[id];
    var slot := SlotFor(cfg, i.addr.service, source);
    && announced != 0 && (time == 0 || announced > time) && !i.tried
    && 1 <= i.refs < 8 && random % Limbs.Pow2(i.refs) == 0
    && !(slot in m.newTable && m.newTable[slot] == id) && MayEnter(m, slot, false, now)
  }

  /** What an announcement does to a known address. */
  ghost predicate Renewed(
    cfg: Config, m: Manager, r: Manager, id: int, addr: Address, source: NetAddr, penalty: int, now: int, random: nat)
    requires id in m.info
  {
    var i := m.info[id];
    var time := TimeAfter(i.addr.time, addr.time, penalty, now);
    var gains := Gains(cfg, m, id, time, addr.time, source, now, random);
    var slot := SlotFor(cfg, i.addr.service, source);
    && id in r.info
    && r.info[id] == i.(addr := Address(i.addr.service, time, i.addr.services + addr.services),
                        refs := if gains then i.refs + 1 else i.refs, pos := r.info[id].pos)
    && r.newTable == (if gains then m.newTable[slot := id] else m.newTable) && r.triedTable == m.triedTable
    && OthersStay(m, r, id, if gains then Occupier(m.newTable, slot, id) else None)
    && r.nextId == m.nextId && r.lastGood == m.lastGood
  }

  lemma {:induction false} SetInfoStays(m: Manager, id: int, i: Info)
    requires id in m.info
    ensures OthersStay(m, SetInfo(m, id, i), id, None)
  {
    forall k | k in m.info && k != id
      ensures Untouched(m, SetInfo(m, id, i), k)
    {
    }
  }

  lemma {:induction false} OthersTrans(m: Manager, n: Manager, r: Manager, id: int, i: Info, out: Option<int>)
    requires id in m.info && n == SetInfo(m, id, i) && OthersStay(n, r, id, out) && out != Some(id)
    ensures OthersStay(m, r, id, out)
  {
    forall k | k in m.info && k != id && out != Some(k)
      ensures Untouched(m, r, k)
    {
      assert Untouched(n, r, k);
    }
  }

  lemma {:induction false} AddKnownRenews(
    cfg: Config, m: Manager, id: int, addr: Address, source: NetAddr, penalty: int, now: int, random: nat, r: Manager)
    requires Structured(cfg, m) && id in m.info
    requires AddKnown(cfg, m, id, addr, source, penalty, now, random) == Some(r)
    ensures Renewed(cfg, m, r, id, addr, source, penalty, now, random)
  {
    assert RefsAt(cfg, m.info, m.newTable, id) && SettledAt(m.info, id);
    var i := Refreshed(m.info[id], addr, penalty, now);
    assert i.addr == Address(m.info[id].addr.service, TimeAfter(m.info[id].addr.time, addr.time, penalty, now),
                             m.info[id].addr.services + addr.services);
    SetInfoKeeps(cfg, m, id, i, 0, {});
    var n := SetInfo(m, id, i);
    SetInfoStays(m, id, i);
    if WantsReference(i, addr, random) {
      var slot := SlotFor(cfg, i.addr.service, source);
      if slot in m.newTable {
        Occupant(cfg, m, slot);
      }
      assert Settled(n.info, {id});
      if (slot in m.newTable && m.newTable[slot] == id) || !MayEnter(n, slot, false, now) {
        PlaceNewStays(cfg, n, id, source, now, r);
      } else {
        PlaceNewEnters(cfg, n, id, source, now, r);
        OthersTrans(m, n, r, id, i, Occupier(m.newTable, slot, id));
      }
    }
  }

  /** What an announcement does for an address that has no entry. */
  ghost predicate Introduced(
    cfg: Config, m: Manager, r: Manager, addr: Address, source: NetAddr, penalty: int, now: int)
  {
    var id := m.nextId;
    var slot := SlotFor(cfg, addr.service, source);
    var time := if addr.time > penalty then addr.time - penalty else 0;
    && r.triedTable == m.triedTable && r.nextId == id + 1 && r.lastGood == m.lastGood
    && if MayEnter(m, slot, true, now) then
         && id in r.info
         && r.info[id] == Info(Address(addr.service, time, addr.services), source, 0, 0, 0, 0, 1, false, r.info[id].pos)
         && r.newTable == m.newTable[slot := id] && OthersStay(m, r, id, Occupier(m.newTable, slot, id))
       else
         r.info.Keys == m.info.Keys && r.newTable == m.newTable && forall k | k in m.info :: Untouched(m, r, k)
  }

  lemma {:induction false} AddUnknownIntroduces(
    cfg: Config, m: Manager, addr: Address, source: NetAddr, penalty: int, now: int, r: Manager)
    requires Structured(cfg, m) && addr.service.addr !in m.ids
    requires AddUnknown(cfg, m, addr, source, penalty, now) == Some(r)
    ensures Introduced(cfg, m, r, addr, source, penalty, now)
  {
    var id, n, slot := m.nextId, Enrolled(m, addr, source, penalty), SlotFor(cfg, addr.service, source);
    CreateKeeps(cfg, m, addr.(time := Max(0, addr.time - penalty)), source, 0, {});
    assert Shape(cfg, n) && Counted(n, 0) && Settled(n.info, {id});
    if slot in m.newTable {
      Occupant(cfg, m, slot);
    }
    EnrolledStays(m, n, addr, source, penalty);
    if MayEnter(m, slot, true, now) {
      PlaceNewEnters(cfg, n, id, source, now, r);
      NewTrans(m, n, r, id, Occupier(m.newTable, slot, id));
    } else {
      PlaceNewDrops(cfg, n, id, source, now, r);
      forall k | k in m.info
        ensures Untouched(m, r, k)
      {
        assert Untouched(n, r, k) && n.info[k] == m.info[k];
      }
    }
  }

  lemma {:induction false} EnrolledStays(m: Manager, n: Manager, addr: Address, source: NetAddr, penalty: int)
    requires n == Enrolled(m, addr, source, penalty) && m.nextId !in m.info
    ensures n.info.Keys == m.info.Keys + {m.nextId} && forall k | k in m.info :: n.info[k] == m.info[k]
    ensures n.newTable == m.newTable && n.triedTable == m.triedTable && n.nextId == m.nextId + 1
    ensures n.lastGood == m.lastGood
  {
  }

  lemma {:induction false} NewTrans(m: Manager, n: Manager, r: Manager, id: int, out: Option<int>)
    requires id !in m.info && n.info.Keys == m.info.Keys + {id} && forall k | k in m.info :: n.info[k] == m.info[k]
    requires OthersStay(n, r, id, out)
    ensures OthersStay(m, r, id, out)
  {
    forall k | k in m.info && out != Some(k)
      ensures Untouched(m, r, k)
    {
      assert Untouched(n, r, k);
    }
  }

  lemma {:induction false} NoTrace(cfg: Config, m: Manager, r: Manager, a: NetAddr)
    requires Structured(cfg, m) && Structured(cfg, r) && a !in m.ids && r.info.Keys == m.info.Keys
    requires forall k | k in m.info :: Untouched(m, r, k)
    ensures a !in r.ids
  {
    forall k | k in r.info
      ensures r.info[k].addr.service.addr != a
    {
      assert Untouched(m, r, k) && IndexedAt(m.info, m.ids, m.nextId, k);
    }
    assert a in r.ids ==> AddrAt(r.info, r.ids, a);
  }

  /** Add_, from any sound manager: an address that is not routable changes nothing;
      a known one is renewed; an unknown one is introduced.  No penalty is taken
      from a source that announces itself. */
  lemma {:induction false} AddLaw(
    cfg: Config, m: Manager, addr: Address, source: NetAddr, penalty: int, now: int, random: nat)
    requires Structured(cfg, m)
    ensures Add(cfg, m, addr, source, penalty, now, random).Some?
    ensures var a := addr.service.addr;
            var p := if a == source then 0 else penalty;
            var (r, isNew) := Add(cfg, m, addr, source, penalty, now, random).value;
            if !cfg.routable(a) then r == m && !isNew
            else if a in m.ids then
              !isNew && m.ids[a] in m.info && Renewed(cfg, m, r, m.ids[a], addr, source, p, now, random)
            else
              isNew && Introduced(cfg, m, r, addr, source, p, now) &&
              (a in r.ids <==> MayEnter(m, SlotFor(cfg, addr.service, source), true, now))
  {
    AddKeeps(cfg, m, addr, source, penalty, now, random);
    var a := addr.service.addr;
    var p := if a == source then 0 else penalty;
    var r := Add(cfg, m, addr, source, penalty, now, random).value.0;
    if cfg.routable(a) {
      if a in m.ids {
        assert AddrAt(m.info, m.ids, a);
        AddKnownRenews(cfg, m, m.ids[a], addr, source, p, now, random, r);
      } else {
        AddUnknownIntroduces(cfg, m, addr, source, p, now, r);
        if MayEnter(m, SlotFor(cfg, addr.service, source), true, now) {
          assert IndexedAt(r.info, r.ids, r.nextId, m.nextId);
        } else {
          NoTrace(cfg, m, r, a);
        }
      }
    }
  }

  // ----- Attempt, Connected and SetServices

  /** Only entry `id` changes, and it becomes `i`. */
  ghost predicate OnlyEntry(m: Manager, r: Manager, id: int, i: Info) {
    id in m.info && r == m.(info := m.info[id := i])
  }

  /** An attempt on a known service sets the time of the last try.  It counts as a
      failure if asked to, and if none has been counted since the last success of
      any entry. */
  lemma {:induction false} AttemptLaw(m: Manager, s: Service, countFailure: bool, time: int)
    ensures var r := Attempt(m, s, countFailure, time);
            if !Knows(m, s) then r == m
            else
              var id := m.ids[s.addr];
              var i := m.info[id];
              OnlyEntry(m, r, id, if countFailure && i.lastCount < m.lastGood
                                  then i.(lastTry := time, lastCount := time, attempts := i.attempts + 1)
                                  else i.(lastTry := time))
  {
  }

  /** Between two successes a second failure is not counted. */
  lemma {:induction false} CountedOnce(m: Manager, s: Service, t: int, u: int)
    requires Knows(m, s) && t >= m.lastGood
    ensures var id, one := m.ids[s.addr], Attempt(m, s, true, t);
            var two := Attempt(one, s, true, u);
            && id in one.info && id in two.info
            && two.info[id].attempts == one.info[id].attempts <= m.info[id].attempts + 1
  {
    AttemptLaw(m, s, true, t);
    var one := Attempt(m, s, true, t);
    assert Knows(one, s);
    AttemptLaw(one, s, true, u);
  }

  /** A connection to a known service brings its time up to date if that is more
      than twenty minutes back. */
  lemma {:induction false} ConnectedLaw(m: Manager, s: Service, time: int)
    ensures var r := Connected(m, s, time);
            if !Knows(m, s) then r == m
            else
              var id := m.ids[s.addr];
              var i := m.info[id];
              OnlyEntry(m, r, id, if time - i.addr.time > 1200 then i.(addr := i.addr.(time := time)) else i)
  {
    if Knows(m, s) {
      var id := m.ids[s.addr];
      assert m.info[id := m.info[id]] == m.info;
    }
  }

  lemma {:induction false} SetServicesLaw(m: Manager, s: Service, services: set<nat>)
    ensures var r := SetServices(m, s, services);
            if !Knows(m, s) then r == m
            else
              var id := m.ids[s.addr];
              var i := m.info[id];
              OnlyEntry(m, r, id, i.(addr := Address(i.addr.service, i.addr.time, services)))
  {
  }

  /** GetAddr_ lists good addresses: at most 2500 and at most 23% of the entries, and
      as many as these limits allow or as there are.  But for the order of the
      entries nothing changes. */
  lemma {:induction false} GetAddrLaw(cfg: Config, m: Manager, random: nat -> nat, now: int)
    requires Structured(cfg, m)
    ensures GetAddr(m, random, now).Some?
    ensures var (r, list) := GetAddr(m, random, now).value;
            && Moved(m.info, r.info) && Shuffled(m, r)
            && |list| <= 2500 && 100 * |list| <= 23 * |m.order|
            && ((exists id | id in m.info :: !IsTerrible(m.info[id], now) && m.info[id].addr !in list) ==>
                  |list| == 2500 || 100 * (|list| + 1) > 23 * |m.order|)
  {
    GetAddrKeeps(cfg, m, random, now);
  }

  // ----- Good

  /** The new table without the slots of an entry. */
  function Without(table: Table, id: int): Table {
    map t | t in table && table[t] != id :: table[t]
  }

  /** Entry `id` and entry `moved` aside, all entries stay, except that `out`, if
      any, gives way; none is new. */
  ghost predicate RestStays(m: Manager, r: Manager, id: int, moved: Option<int>, out: Option<int>) {
    && (forall k {:trigger k in r.info} | k in r.info :: k in m.info)
    && (forall k {:trigger Untouched(m, r, k)} | k in m.info && k != id && moved != Some(k) && out != Some(k) ::
          Untouched(m, r, k))
    && (out.Some? && out.value in m.info ==> GivesWay(m, r, out.value))
  }

  /** What eviction does: the entry of a tried slot goes back to the bucket of its
      source, where it has one reference. */
  ghost predicate Evicted(cfg: Config, m: Manager, slot: Slot, r: Manager)
    requires slot in m.triedTable
  {
    var e := m.triedTable[slot];
    e in m.info && e in r.info &&
    var home := SlotFor(cfg, m.info[e].addr.service, m.info[e].source);
    && r.info[e] == m.info[e].(tried := false, refs := 1, pos := r.info[e].pos)
    && r.triedTable == m.triedTable - {slot} && r.newTable == m.newTable[home := e]
    && RestStays(m, r, e, None, Occupier(m.newTable, home, e))
    && r.nextId == m.nextId && r.lastGood == m.lastGood
  }

  /** An entry in a new slot is neither tried nor without references. */
  lemma {:induction false} NotOccupying(cfg: Config, m: Manager, slot: Slot, k: int)
    requires Shape(cfg, m) && slot in m.newTable && k in m.info && (m.info[k].tried || m.info[k].refs == 0)
    ensures m.newTable[slot] != k
  {
    Occupant(cfg, m, slot);
  }

  lemma {:induction false} EvictLaw(cfg: Config, m: Manager, slot: Slot, x: int, loose: set<int>, id: int, r: Manager)
    requires Shape(cfg, m) && Settled(m.info, loose) && Counted(m, x) && slot in m.triedTable
    requires id in m.info && m.info[id].refs == 0 && !m.info[id].tried && Evict(cfg, m, slot) == Some(r)
    ensures Evicted(cfg, m, slot, r) && Untouched(m, r, id)
  {
    var u, c := EvictParts(cfg, m, slot);
    var e := m.triedTable[slot];
    var home := SlotFor(cfg, m.info[e].addr.service, m.info[e].source);
    assert TriedSlotAt(cfg, m.info, m.triedTable, slot);
    if home in m.newTable {
      NotOccupying(cfg, m, home, e);
      NotOccupying(cfg, m, home, id);
    }
    UntryKeeps(cfg, m, slot, x, loose);
    EvictedLink(cfg, m, u, slot, x, loose, c, r);
    EvictRest(m, u, r, e, Occupier(m.newTable, home, e), id);
  }

  lemma {:induction false} EvictedLink(
    cfg: Config, m: Manager, u: Manager, slot: Slot, x: int, loose: set<int>, c: Manager, r: Manager)
    requires slot in m.triedTable && m.triedTable[slot] in m.info && u == Untry(m, slot)
    requires Shape(cfg, u) && Settled(u.info, loose + {m.triedTable[slot]}) && Counted(u, x - 1)
    requires var e := m.triedTable[slot];
             var home := SlotFor(cfg, m.info[e].addr.service, m.info[e].source);
             && (home in m.newTable ==> m.newTable[home] != e)
             && ClearNew(u, home) == Some(c) && e in c.info && r == Link(c, e, home, 1).(nNew := c.nNew + 1)
    ensures var e := m.triedTable[slot];
            var home := SlotFor(cfg, m.info[e].addr.service, m.info[e].source);
            && e in r.info && r.info[e] == u.info[e].(refs := 1, pos := r.info[e].pos)
            && OthersStay(u, r, e, Occupier(m.newTable, home, e))
            && r.newTable == m.newTable[home := e] && r.triedTable == m.triedTable - {slot}
            && r.nextId == m.nextId && r.lastGood == m.lastGood
  {
    var e := m.triedTable[slot];
    var home := SlotFor(cfg, m.info[e].addr.service, m.info[e].source);
    ReplaceStays(cfg, u, home, x - 1, loose + {e}, e, 1, r);
  }

  lemma {:induction false} EvictRest(m: Manager, u: Manager, r: Manager, e: int, out: Option<int>, id: int)
    requires e in m.info && u.info == m.info[e := m.info[e].(tried := false)]
    requires OthersStay(u, r, e, out) && out != Some(e) && id in m.info && id != e && out != Some(id)
    ensures RestStays(m, r, e, None, out) && Untouched(m, r, id)
  {
    forall k | k in m.info && k != e && out != Some(k)
      ensures Untouched(m, r, k)
    {
      assert Untouched(u, r, k);
    }
  }

  /** What MakeTried does: the entry leaves the new table for its tried slot, and
      the entry of that slot, if any, takes the way back. */
  ghost predicate BecomesTried(cfg: Config, m: Manager, r: Manager, id: int)
    requires id in m.info
  {
    var slot := TriedSlot(cfg, m.info[id].addr.service);
    var table := Without(m.newTable, id);
    && id in r.info && r.info[id] == m.info[id].(refs := 0, tried := true, pos := r.info[id].pos)
    && r.triedTable == m.triedTable[slot := id] && r.nextId == m.nextId && r.lastGood == m.lastGood
    && if slot !in m.triedTable then r.newTable == table && RestStays(m, r, id, None, None)
       else
         var e := m.triedTable[slot];
         e in m.info && e in r.info &&
         var home := SlotFor(cfg, m.info[e].addr.service, m.info[e].source);
         && r.info[e] == m.info[e].(tried := false, refs := 1, pos := r.info[e].pos)
         && r.newTable == table[home := e] && RestStays(m, r, id, Some(e), Occupier(table, home, e))
  }

  lemma {:induction false} MakeTriedLaw(cfg: Config, m: Manager, id: int, r: Manager)
    requires Structured(cfg, m) && id in m.info && !m.info[id].tried && MakeTried(cfg, m, id) == Some(r)
    ensures BecomesTried(cfg, m, r, id)
  {
    var u, e := MakeTriedParts(cfg, m, id);
    var slot := TriedSlot(cfg, m.info[id].addr.service);
    assert u.newTable == Without(m.newTable, id);
    if slot in m.triedTable {
      UnlinkKeeps(cfg, m, id, 0, {});
      assert Shape(cfg, u) && Settled(u.info, {id}) && Counted(u, -1);
      EvictLaw(cfg, u, slot, -1, {id}, id, e);
      assert TriedSlotAt(cfg, m.info, m.triedTable, slot);
      TriedAfterEvict(cfg, m, u, e, r, id, slot);
    } else {
      forall k | k in m.info && k != id
        ensures Untouched(m, r, k)
      {
      }
    }
  }

  lemma {:induction false} TriedAfterEvict(
    cfg: Config, m: Manager, u: Manager, e: Manager, r: Manager, id: int, slot: Slot)
    requires id in m.info && slot == TriedSlot(cfg, m.info[id].addr.service) && slot in m.triedTable
    requires u == Unlink(m, id).(nNew := m.nNew - 1) && Evicted(cfg, u, slot, e) && Untouched(u, e, id)
    requires r == PutTried(e, id, slot) && m.triedTable[slot] != id
    ensures BecomesTried(cfg, m, r, id)
  {
    var k := m.triedTable[slot];
    var home := SlotFor(cfg, m.info[k].addr.service, m.info[k].source);
    assert (m.triedTable - {slot})[slot := id] == m.triedTable[slot := id];
    assert u.newTable == Without(m.newTable, id) && u.info[k] == m.info[k];
    TriedRest(m, u, e, r, id, k, Occupier(u.newTable, home, k));
  }

  lemma {:induction false} TriedRest(m: Manager, u: Manager, e: Manager, r: Manager, id: int, k: int, out: Option<int>)
    requires id in m.info && id != k && u.info == m.info[id := m.info[id].(refs := 0)] && out != Some(id)
    requires id in e.info && r.info == e.info[id := e.info[id].(tried := true)] && RestStays(u, e, k, None, out)
    ensures RestStays(m, r, id, Some(k), out)
  {
    forall z | z in m.info && z != id && z != k && out != Some(z)
      ensures Untouched(m, r, z)
    {
      assert Untouched(u, e, z);
    }
  }

  /** Good_ on a known service: the entry notes the success and forgets failures;
      if it was not tried, it becomes so. */
  lemma {:induction false} GoodLaw(cfg: Config, m: Manager, s: Service, time: int)
    requires Structured(cfg, m)
    ensures Good(cfg, m, s, time).Some?
    ensures var r := Good(cfg, m, s, time).value;
            if !Knows(m, s) then r == m.(lastGood := time)
            else
              var id := m.ids[s.addr];
              var i := m.info[id].(lastSuccess := time, lastTry := time, attempts := 0);
              var g := m.(lastGood := time, info := m.info[id := i]);
              if i.tried then r == g else BecomesTried(cfg, g, r, id)
  {
    GoodKeeps(cfg, m, s, time);
    var r := Good(cfg, m, s, time).value;
    if Knows(m, s) {
      var id := m.ids[s.addr];
      var h := m.(lastGood := time);
      assert RefsAt(cfg, m.info, m.newTable, id) && SettledAt(m.info, id);
      var i := m.info[id].(lastSuccess := time, lastTry := time, attempts := 0);
      SetInfoKeeps(cfg, h, id, i, 0, {});
      var g := SetInfo(h, id, i);
      if !i.tried {
        MakeTriedLaw(cfg, g, id, r);
      }
    }
  }
}
