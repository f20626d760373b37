/**
  How far addresses are spread over the tables (src/addrman.h:118-137): what one
  group of addresses, or the sources of one group, can take up.
 */
module AddrManSpread {
  import opened Common
  import opened AddrMan
  import opened AddrManInv
  import opened AddrManLaws

  // ----- buckets

  /** The first `n` of the new buckets for what is heard from sources of a group. */
  function FirstSources(cfg: Config, group: int, n: nat): (r: set<nat>)
    ensures |r| <= n && forall k: nat | k < n :: cfg.hash(NewSource(cfg.key, group, k)) % 1024 in r
  {
    if n == 0 then {} else FirstSources(cfg, group, n - 1) + {cfg.hash(NewSource(cfg.key, group, n - 1)) % 1024}
  }

  function SourceBuckets(cfg: Config, group: int): set<nat> {
    FirstSources(cfg, group, 64)
  }

  /** The first `n` of the tried buckets for addresses of a group. */
  function FirstGroups(cfg: Config, group: int, n: nat): (r: set<nat>)
    ensures |r| <= n && forall k: nat | k < n :: cfg.hash(TriedGroup(cfg.key, group, k)) % 256 in r
  {
    if n == 0 then {} else FirstGroups(cfg, group, n - 1) + {cfg.hash(TriedGroup(cfg.key, group, n - 1)) % 256}
  }

  function GroupBuckets(cfg: Config, group: int): set<nat> {
    FirstGroups(cfg, group, 8)
  }

  /** What sources of one group say goes into 64 buckets at most, and all they say
      about addresses of one group into a single one. */
  lemma {:induction false} NewSpread(cfg: Config, s: Service, t: Service, source: NetAddr, other: NetAddr)
    requires cfg.group(source) == cfg.group(other)
    ensures |SourceBuckets(cfg, cfg.group(source))| <= 64
    ensures NewBucket(cfg, s, source) in SourceBuckets(cfg, cfg.group(source))
    ensures SlotFor(cfg, s, source).pos == cfg.hash(Place(cfg.key, true, NewBucket(cfg, s, source), s)) % 64
    ensures cfg.group(s.addr) == cfg.group(t.addr) ==> NewBucket(cfg, s, source) == NewBucket(cfg, t, other)
  {
    var n := cfg.hash(NewGroups(cfg.key, cfg.group(s.addr), cfg.group(source))) % 64;
    assert cfg.hash(NewSource(cfg.key, cfg.group(source), n)) % 1024 in FirstSources(cfg, cfg.group(source), 64);
  }

  /** Tried addresses of one group go into 8 buckets at most. */
  lemma {:induction false} TriedSpread(cfg: Config, s: Service)
    ensures |GroupBuckets(cfg, cfg.group(s.addr))| <= 8
    ensures TriedBucket(cfg, s) in GroupBuckets(cfg, cfg.group(s.addr))
    ensures TriedSlot(cfg, s).pos == cfg.hash(Place(cfg.key, false, TriedBucket(cfg, s), s)) % 64
  {
    var n := cfg.hash(TriedKey(cfg.key, s)) % 8;
    assert cfg.hash(TriedGroup(cfg.key, cfg.group(s.addr), n)) % 256 in FirstGroups(cfg, cfg.group(s.addr), 8);
  }

  // ----- slots

  function Row(bucket: nat, n: nat): (r: set<Slot>)
    ensures |r| <= n && forall p: nat | p < n :: Slot(bucket, p) in r
  {
    if n == 0 then {} else Row(bucket, n - 1) + {Slot(bucket, n - 1)}
  }

  /** Some buckets have 64 slots each. */
  lemma {:induction false} SlotsOf(buckets: set<nat>) returns (slots: set<Slot>)
    ensures |slots| <= 64 * |buckets|
    ensures forall s: Slot | s.bucket in buckets && s.pos < 64 :: s in slots
  {
    if buckets == {} {
      slots := {};
    } else {
      var b :| b in buckets;
      var rest := SlotsOf(buckets - {b});
      slots := rest + Row(b, 64);
      forall s: Slot | s.bucket in buckets && s.pos < 64
        ensures s in slots
      {
        assert s.bucket == b ==> Slot(b, s.pos) == s;
      }
    }
  }

  /** Every entry of `ids` has a slot of its own. */
  predicate Housed(ids: set<int>, table: Table, slots: set<Slot>) {
    forall id | id in ids :: exists s | s in slots :: s in table && table[s] == id
  }

  lemma {:induction false} NoMoreThanSlots(ids: set<int>, table: Table, slots: set<Slot>)
    requires Housed(ids, table, slots)
    ensures |ids| <= |slots|
  {
    if ids != {} {
      var id := SomeElement(ids);
      var s :| s in slots && s in table && table[s] == id;
      forall k | k in ids - {id}
        ensures exists t | t in slots - {s} :: t in table && table[t] == k
      {
        var t :| t in slots && t in table && table[t] == k;
        assert t in slots - {s};
      }
      NoMoreThanSlots(ids - {id}, table, slots - {s});
    }
  }

  // ----- tried entries of one group

  function TriedOf(cfg: Config, info: Infos, group: int): set<int> {
    set id | id in info && info[id].tried && cfg.group(info[id].addr.service.addr) == group
  }

  /** In every run from a new manager, the tried entries of one group are at most
      512, in 8 buckets. */
  lemma {:induction false} OneGroupTried(cfg: Config, ops: seq<Op>, group: int)
    ensures Run(cfg, EMPTY, ops).Some?
    ensures var m := Run(cfg, EMPTY, ops).value;
            && |TriedOf(cfg, m.info, group)| <= 512
            && forall s | s in m.triedTable && m.triedTable[s] in TriedOf(cfg, m.info, group) ::
                 s.bucket in GroupBuckets(cfg, group)
  {
    EveryRunConsistent(cfg, ops);
    var m := Run(cfg, EMPTY, ops).value;
    var ids := TriedOf(cfg, m.info, group);
    var slots := SlotsOf(GroupBuckets(cfg, group));
    forall s | s in m.triedTable && m.triedTable[s] in ids
      ensures s.bucket in GroupBuckets(cfg, group)
    {
      assert TriedSlotAt(cfg, m.info, m.triedTable, s);
      TriedSpread(cfg, m.info[m.triedTable[s]].addr.service);
    }
    forall id | id in ids
      ensures exists s | s in slots :: s in m.triedTable && m.triedTable[s] == id
    {
      assert TriedAt(cfg, m.info, m.triedTable, id);
      var s := TriedSlot(cfg, m.info[id].addr.service);
      TriedSpread(cfg, m.info[id].addr.service);
      assert s in slots;
    }
    NoMoreThanSlots(ids, m.triedTable, slots);
  }

  // ----- new entries from one group

  /** All that is known was heard from sources of one group, and lies in the buckets
      of that group. */
  ghost predicate HeardFrom(cfg: Config, m: Manager, group: int) {
    && (forall id {:trigger m.info[id]} | id in m.info :: cfg.group(m.info[id].source) == group)
    && (forall s {:trigger s in m.newTable} | s in m.newTable :: s.bucket in SourceBuckets(cfg, group))
  }

  /** Sources aside, and but for `id`, there are no entries but old ones. */
  ghost predicate SameSources(m: Manager, r: Manager, id: int) {
    forall k {:trigger r.info[k]} | k in r.info && k != id :: k in m.info && r.info[k].source == m.info[k].source
  }

  lemma {:induction false} OthersSources(m: Manager, r: Manager, id: int, out: Option<int>)
    requires OthersStay(m, r, id, out)
    ensures SameSources(m, r, id)
  {
    forall k | k in r.info && k != id
      ensures k in m.info && r.info[k].source == m.info[k].source
    {
      assert out != Some(k) ==> Untouched(m, r, k);
    }
  }

  lemma {:induction false} RestSources(m: Manager, r: Manager, id: int, moved: Option<int>, out: Option<int>)
    requires RestStays(m, r, id, moved, out) && id in m.info && id in r.info && r.info[id].source == m.info[id].source
    requires moved.Some? && moved.value in r.info ==>
               moved.value in m.info && r.info[moved.value].source == m.info[moved.value].source
    ensures forall k | k in r.info :: k in m.info && r.info[k].source == m.info[k].source
  {
    forall k | k in r.info
      ensures k in m.info && r.info[k].source == m.info[k].source
    {
      assert k != id && moved != Some(k) && out != Some(k) ==> Untouched(m, r, k);
    }
  }

  lemma {:induction false} AddHeard(
    cfg: Config, m: Manager, addr: Address, source: NetAddr, penalty: int, now: int, random: nat, group: int)
    requires Structured(cfg, m) && HeardFrom(cfg, m, group) && cfg.group(source) == group
    ensures Add(cfg, m, addr, source, penalty, now, random).Some?
    ensures HeardFrom(cfg, Add(cfg, m, addr, source, penalty, now, random).value.0, group)
  {
    AddLaw(cfg, m, addr, source, penalty, now, random);
    var r := Add(cfg, m, addr, source, penalty, now, random).value.0;
    var a := addr.service.addr;
    if cfg.routable(a) && a in m.ids {
      var id := m.ids[a];
      var i := m.info[id];
      var p := if a == source then 0 else penalty;
      var gains := Gains(cfg, m, id, TimeAfter(i.addr.time, addr.time, p, now), addr.time, source, now, random);
      var slot := SlotFor(cfg, i.addr.service, source);
      NewSpread(cfg, i.addr.service, i.addr.service, source, source);
      OthersSources(m, r, id, if gains then Occupier(m.newTable, slot, id) else None);
      assert r.info[id].source == m.info[id].source;
    } else if cfg.routable(a) {
      IntroducedHeard(cfg, m, addr, source, if a == source then 0 else penalty, now, r, group);
    }
  }

  lemma {:induction false} IntroducedHeard(
    cfg: Config, m: Manager, addr: Address, source: NetAddr, penalty: int, now: int, r: Manager, group: int)
    requires HeardFrom(cfg, m, group) && cfg.group(source) == group && Introduced(cfg, m, r, addr, source, penalty, now)
    ensures HeardFrom(cfg, r, group)
  {
    var id, slot := m.nextId, SlotFor(cfg, addr.service, source);
    if MayEnter(m, slot, true, now) {
      NewSpread(cfg, addr.service, addr.service, source, source);
      OthersSources(m, r, id, Occupier(m.newTable, slot, id));
    } else {
      forall k | k in r.info
        ensures cfg.group(r.info[k].source) == group
      {
        assert Untouched(m, r, k);
      }
    }
  }

  lemma {:induction false} GoodHeard(cfg: Config, m: Manager, s: Service, time: int, group: int)
    requires Structured(cfg, m) && HeardFrom(cfg, m, group)
    ensures Good(cfg, m, s, time).Some? && HeardFrom(cfg, Good(cfg, m, s, time).value, group)
  {
    GoodLaw(cfg, m, s, time);
    if Knows(m, s) {
      var id := m.ids[s.addr];
      var i := m.info[id].(lastSuccess := time, lastTry := time, attempts := 0);
      var g := m.(lastGood := time, info := m.info[id := i]);
      assert HeardFrom(cfg, g, group);
      if !i.tried {
        TriedHeard(cfg, g, Good(cfg, m, s, time).value, id, group);
      }
    }
  }

  lemma {:induction false} TriedHeard(cfg: Config, m: Manager, r: Manager, id: int, group: int)
    requires id in m.info && BecomesTried(cfg, m, r, id) && HeardFrom(cfg, m, group)
    ensures HeardFrom(cfg, r, group)
  {
    var slot, table := TriedSlot(cfg, m.info[id].addr.service), Without(m.newTable, id);
    if slot in m.triedTable {
      var e := m.triedTable[slot];
      var home := SlotFor(cfg, m.info[e].addr.service, m.info[e].source);
      NewSpread(cfg, m.info[e].addr.service, m.info[e].addr.service, m.info[e].source, m.info[e].source);
      RestSources(m, r, id, Some(e), Occupier(table, home, e));
    } else {
      RestSources(m, r, id, None, None);
    }
    forall t | t in r.newTable
      ensures t.bucket in SourceBuckets(cfg, group)
    {
      assert t in m.newTable || t.bucket in SourceBuckets(cfg, group);
    }
  }

  lemma {:induction false} ApplyHeard(cfg: Config, m: Manager, op: Op, group: int)
    requires Structured(cfg, m) && HeardFrom(cfg, m, group) && (op.OpAdd? ==> cfg.group(op.source) == group)
    ensures Apply(cfg, m, op).Some? && HeardFrom(cfg, Apply(cfg, m, op).value, group)
  {
    match op
    case OpAdd(addr, source, penalty, now, random) => AddHeard(cfg, m, addr, source, penalty, now, random, group);
    case OpGood(s, time) => GoodHeard(cfg, m, s, time, group);
    case OpAttempt(s, count, time) => AttemptLaw(m, s, count, time);
    case OpConnected(s, time) => ConnectedLaw(m, s, time);
    case OpServices(s, services) => SetServicesLaw(m, s, services);
    case OpGetAddr(choose, now) =>
      GetAddrLaw(cfg, m, choose, now);
      var r := GetAddr(m, choose, now).value.0;
      forall k | k in r.info
        ensures cfg.group(r.info[k].source) == group
      {
        assert r.info[k] == m.info[k].(pos := r.info[k].pos);
      }
  }

  lemma {:induction false} RunHeard(cfg: Config, m: Manager, ops: seq<Op>, group: int)
    requires Structured(cfg, m) && HeardFrom(cfg, m, group)
    requires forall i | 0 <= i < |ops| :: ops[i].OpAdd? ==> cfg.group(ops[i].source) == group
    ensures Run(cfg, m, ops).Some? && HeardFrom(cfg, Run(cfg, m, ops).value, group)
    decreases |ops|
  {
    if ops != [] {
      ApplyKeeps(cfg, m, ops[0]);
      ApplyHeard(cfg, m, ops[0], group);
      RunHeard(cfg, Apply(cfg, m, ops[0]).value, ops[1..], group);
    }
  }

  /** Sources of one group, however often and whatever they announce, fill at most
      64 of the new buckets, and there are never more than 4096 new entries. */
  lemma {:induction false} OneSourceGroup(cfg: Config, ops: seq<Op>, group: int)
    requires forall i | 0 <= i < |ops| :: ops[i].OpAdd? ==> cfg.group(ops[i].source) == group
    ensures Run(cfg, EMPTY, ops).Some?
    ensures var m := Run(cfg, EMPTY, ops).value;
            && m.nNew <= 4096
            && forall s | s in m.newTable :: s.bucket in SourceBuckets(cfg, group)
  {
    EmptyConsistent(cfg);
    EveryRunConsistent(cfg, ops);
    RunHeard(cfg, EMPTY, ops, group);
    var m := Run(cfg, EMPTY, ops).value;
    var slots := SlotsOf(SourceBuckets(cfg, group));
    forall id | id in NewIds(m.info)
      ensures exists s | s in slots :: s in m.newTable && m.newTable[s] == id
    {
      assert RefsAt(cfg, m.info, m.newTable, id) && SettledAt(m.info, id);
      var b :| b in Buckets(cfg, m.info[id].addr.service, m.newTable, id);
      var s := NewSlot(cfg, m.info[id].addr.service, b);
      assert s in m.newTable && m.newTable[s] == id && s in slots;
    }
    NoMoreThanSlots(NewIds(m.info), m.newTable, slots);
  }

  /** An announcement changes no slot outside the buckets of its source's group. */
  lemma {:induction false} AddReaches(
    cfg: Config, m: Manager, addr: Address, source: NetAddr, penalty: int, now: int, random: nat, s: Slot)
    requires Structured(cfg, m) && s.bucket !in SourceBuckets(cfg, cfg.group(source))
    ensures Add(cfg, m, addr, source, penalty, now, random).Some?
    ensures var r := Add(cfg, m, addr, source, penalty, now, random).value.0;
            && r.triedTable == m.triedTable && (s in r.newTable <==> s in m.newTable)
            && (s in m.newTable ==> r.newTable[s] == m.newTable[s])
  {
    AddLaw(cfg, m, addr, source, penalty, now, random);
    var t := if addr.service.addr in m.ids && m.ids[addr.service.addr] in m.info
             then m.info[m.ids[addr.service.addr]].addr.service else addr.service;
    NewSpread(cfg, t, t, source, source);
    NewSpread(cfg, addr.service, addr.service, source, source);
  }
}
