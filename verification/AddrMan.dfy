/**
  The stochastic address manager of src/addrman.cpp and src/addrman.h, as a
  value and functions on it.  Module `AddrManObject` has the code that updates
  the tables in place; module `AddrManInv` proves the invariant.

  Hash functions and address classes are parameters (`Config`), random numbers
  and the clock are arguments.
 */
module AddrMan {
  import opened Common
  import Limbs

  const TRIED_BUCKET_COUNT := 256
  const NEW_BUCKET_COUNT := 1024
  const BUCKET_SIZE := 64
  const TRIED_BUCKETS_PER_GROUP := 8
  const NEW_BUCKETS_PER_SOURCE_GROUP := 64
  const NEW_BUCKETS_PER_ADDRESS := 8
  const HORIZON_DAYS := 30
  const RETRIES := 3
  const MAX_FAILURES := 10
  const MIN_FAIL_DAYS := 7
  const GETADDR_MAX_PCT := 23
  const GETADDR_MAX := 2500
  const HOUR := 60 * 60
  const DAY := 24 * HOUR

  datatype NetAddr = NetAddr(ip: int)

  datatype Service = Service(addr: NetAddr, port: int)

  datatype Address = Address(service: Service, time: int, services: set<nat>)

  datatype Info = Info(
    addr: Address, source: NetAddr,
    lastTry: int, lastCount: int, lastSuccess: int, attempts: int,
    refs: int, tried: bool, pos: int)

  /** What is fed to the hash in each of the five places. */
  datatype Preimage =
    | TriedKey(key: int, service: Service)
    | TriedGroup(key: int, group: int, n: nat)
    | NewGroups(key: int, group: int, sourceGroup: int)
    | NewSource(key: int, sourceGroup: int, n: nat)
    | Place(key: int, isNew: bool, bucket: nat, service: Service)

  datatype Config = Config(key: int, hash: Preimage -> nat, group: NetAddr -> int, routable: NetAddr -> bool)

  datatype Slot = Slot(bucket: nat, pos: nat)

  /** In the order of a scan over all buckets, slot `s` comes before place `i` of
      bucket `b`. */
  predicate Before(s: Slot, b: nat, i: nat) {
    s.bucket < b || (s.bucket == b && s.pos < i)
  }

  type Table = map<Slot, int>

  type Infos = map<int, Info>

  function TriedBucket(cfg: Config, s: Service): (b: nat)
    ensures b < TRIED_BUCKET_COUNT
  {
    var hash1 := cfg.hash(TriedKey(cfg.key, s));
    cfg.hash(TriedGroup(cfg.key, cfg.group(s.addr), hash1 % TRIED_BUCKETS_PER_GROUP)) % TRIED_BUCKET_COUNT
  }

  function NewBucket(cfg: Config, s: Service, source: NetAddr): (b: nat)
    ensures b < NEW_BUCKET_COUNT
  {
    var hash1 := cfg.hash(NewGroups(cfg.key, cfg.group(s.addr), cfg.group(source)));
    cfg.hash(NewSource(cfg.key, cfg.group(source), hash1 % NEW_BUCKETS_PER_SOURCE_GROUP)) % NEW_BUCKET_COUNT
  }

  function Position(cfg: Config, isNew: bool, bucket: nat, s: Service): (p: nat)
    ensures p < BUCKET_SIZE
  {
    cfg.hash(Place(cfg.key, isNew, bucket, s)) % BUCKET_SIZE
  }

  function TriedSlot(cfg: Config, s: Service): Slot {
    Slot(TriedBucket(cfg, s), Position(cfg, false, TriedBucket(cfg, s), s))
  }

  function NewSlot(cfg: Config, s: Service, bucket: nat): Slot {
    Slot(bucket, Position(cfg, true, bucket, s))
  }

  function IsTerrible(i: Info, now: int): bool {
    if i.lastTry != 0 && i.lastTry >= now - 60 then false
    else
      || i.addr.time > now + 10 * 60
      || i.addr.time == 0
      || now - i.addr.time > HORIZON_DAYS * DAY
      || (i.lastSuccess == 0 && i.attempts >= RETRIES)
      || (now - i.lastSuccess > MIN_FAIL_DAYS * DAY && i.attempts >= MAX_FAILURES)
  }

  /** The members of CAddrMan.  A slot that holds -1 is absent from its table. */
  datatype Manager = Manager(
    nextId: int, info: Infos, ids: map<NetAddr, int>, order: seq<int>,
    newTable: Table, triedTable: Table,
    nNew: int, nTried: int, lastGood: int)

  const EMPTY := Manager(0, map[], map[], [], map[], map[], 0, 0, 1)

  function Find(m: Manager, a: NetAddr): Option<int> {
    if a in m.ids && m.ids[a] in m.info then Some(m.ids[a]) else None
  }

  function Create(m: Manager, addr: Address, source: NetAddr): Manager {
    m.(nextId := m.nextId + 1,
       info := m.info[m.nextId := Info(addr, source, 0, 0, 0, 0, 0, false, |m.order|)],
       ids := m.ids[addr.service.addr := m.nextId],
       order := m.order + [m.nextId])
  }

  function SwapRandom(m: Manager, i: int, j: int): Option<Manager> {
    if i == j then Some(m)
    else
      :- Assert(0 <= i < |m.order| && 0 <= j < |m.order|);
      var id1, id2 := m.order[i], m.order[j];
      :- Assert(id1 in m.info);
      :- Assert(id2 in m.info);
      var info := m.info[id1 := m.info[id1].(pos := j)];
      Some(m.(info := info[id2 := info[id2].(pos := i)], order := m.order[i := id2][j := id1]))
  }

  function Delete(m: Manager, id: int): Option<Manager> {
    var last := |m.order| - 1;
    :- Assert(id in m.info && m.order != []);
    :- Assert(!m.info[id].tried);
    :- Assert(m.info[id].refs == 0);
    var s :- SwapRandom(m, m.info[id].pos, last);
    :- Assert(s.order != []);
    Some(Drop(s, id, m.info[id].addr.service.addr))
  }

  /** The last of the order goes, and entry `id` of address `a` with it. */
  function Drop(s: Manager, id: int, a: NetAddr): Manager
    requires s.order != []
  {
    s.(order := s.order[..|s.order| - 1], ids := s.ids - {a}, info := s.info - {id}, nNew := s.nNew - 1)
  }

  function SetRefs(m: Manager, id: int, refs: int): Manager
    requires id in m.info
  {
    m.(info := m.info[id := m.info[id].(refs := refs)])
  }

  /** A new slot loses its entry, the entry one reference. */
  function Unref(m: Manager, slot: Slot): Manager
    requires slot in m.newTable && m.newTable[slot] in m.info
  {
    var id := m.newTable[slot];
    SetRefs(m, id, m.info[id].refs - 1).(newTable := m.newTable - {slot})
  }

  function ClearNew(m: Manager, slot: Slot): Option<Manager> {
    if slot !in m.newTable then Some(m)
    else
      var id := m.newTable[slot];
      :- Assert(id in m.info && m.info[id].refs > 0);
      var s := Unref(m, slot);
      if s.info[id].refs == 0 then Delete(s, id) else Some(s)
  }

  /** A slot gets an entry, and the entry has `refs` references from now on. */
  function Link(m: Manager, id: int, slot: Slot, refs: int): Manager
    requires id in m.info
  {
    SetRefs(m, id, refs).(newTable := m.newTable[slot := id])
  }

  /** The entry leaves every new slot. */
  function Unlink(m: Manager, id: int): Manager
    requires id in m.info
  {
    SetRefs(m, id, 0).(newTable := map s | s in m.newTable && m.newTable[s] != id :: m.newTable[s])
  }

  /** The entry in a tried slot leaves the tried table. */
  function Untry(m: Manager, slot: Slot): Manager
    requires slot in m.triedTable && m.triedTable[slot] in m.info
  {
    var id := m.triedTable[slot];
    m.(info := m.info[id := m.info[id].(tried := false)], triedTable := m.triedTable - {slot}, nTried := m.nTried - 1)
  }

  /** Where an entry goes that is evicted from the tried table. */
  function HomeSlot(cfg: Config, i: Info): Slot {
    NewSlot(cfg, i.addr.service, NewBucket(cfg, i.addr.service, i.source))
  }

  function Evict(cfg: Config, m: Manager, slot: Slot): Option<Manager>
    requires slot in m.triedTable
  {
    var id := m.triedTable[slot];
    :- Assert(id in m.info);
    var u := Untry(m, slot);
    var home := HomeSlot(cfg, u.info[id]);
    var c :- ClearNew(u, home);
    :- Assert(id in c.info && home !in c.newTable);
    Some(Link(c, id, home, 1).(nNew := c.nNew + 1))
  }

  function MakeRoom(cfg: Config, m: Manager, slot: Slot): Option<Manager> {
    if slot in m.triedTable then Evict(cfg, m, slot) else Some(m)
  }

  function PutTried(m: Manager, id: int, slot: Slot): Manager
    requires id in m.info
  {
    m.(info := m.info[id := m.info[id].(tried := true)], triedTable := m.triedTable[slot := id], nTried := m.nTried + 1)
  }

  function MakeTried(cfg: Config, m: Manager, id: int): Option<Manager>
    requires id in m.info
  {
    var u := Unlink(m, id).(nNew := m.nNew - 1);
    var slot := TriedSlot(cfg, m.info[id].addr.service);
    var e :- MakeRoom(cfg, u, slot);
    :- Assert(id in e.info && slot !in e.triedTable);
    Some(PutTried(e, id, slot))
  }

  // ----- the operations

  function SetInfo(m: Manager, id: int, i: Info): Manager {
    m.(info := m.info[id := i])
  }

  /** The buckets of the new table that hold entry `id` of service `s`. */
  function Buckets(cfg: Config, s: Service, table: Table, id: int): set<nat> {
    set b: nat | b < NEW_BUCKET_COUNT && InBucket(cfg, s, table, id, b)
  }

  predicate InBucket(cfg: Config, s: Service, table: Table, id: int, b: nat) {
    NewSlot(cfg, s, b) in table && table[NewSlot(cfg, s, b)] == id
  }

  function Good(cfg: Config, m0: Manager, addr: Service, time: int): Option<Manager> {
    var m := m0.(lastGood := time);
    match Find(m, addr.addr)
    case None => Some(m)
    case Some(id) => if m.info[id].addr.service != addr then Some(m) else GoodEntry(cfg, m, id, time)
  }

  /** Good, once the entry is found. */
  function GoodEntry(cfg: Config, m: Manager, id: int, time: int): Option<Manager>
    requires id in m.info
  {
    var i := m.info[id].(lastSuccess := time, lastTry := time, attempts := 0);
    var g := SetInfo(m, id, i);
    if i.tried || Buckets(cfg, i.addr.service, g.newTable, id) == {} then Some(g) else MakeTried(cfg, g, id)
  }

  /** Another reference is given once in so many times. */
  function Factor(refs: int): int {
    Limbs.Pow2(Max(0, refs))
  }

  /** An address seen again brings a newer time and more services. */
  function Refreshed(i: Info, addr: Address, penalty: int, now: int): Info {
    var interval := if now - addr.time < DAY then HOUR else DAY;
    var time := if addr.time != 0 && (i.addr.time == 0 || i.addr.time < addr.time - interval - penalty)
                then Max(0, addr.time - penalty) else i.addr.time;
    i.(addr := i.addr.(time := time, services := i.addr.services + addr.services))
  }

  /** Whether an address seen again is given another reference. */
  predicate WantsReference(i: Info, addr: Address, random: nat) {
    && addr.time != 0 && (i.addr.time == 0 || addr.time > i.addr.time)
    && !i.tried
    && i.refs != NEW_BUCKETS_PER_ADDRESS
    && (Factor(i.refs) > 1 ==> random % Factor(i.refs) == 0)
  }

  /** The last part of Add_: put the entry into the bucket of its source. */
  function PlaceNew(cfg: Config, m: Manager, id: int, source: NetAddr, now: int): Option<Manager>
    requires id in m.info
  {
    var i := m.info[id];
    var slot := NewSlot(cfg, i.addr.service, NewBucket(cfg, i.addr.service, source));
    if slot in m.newTable && m.newTable[slot] == id then Some(m)
    else
      :- Assert(slot in m.newTable ==> m.newTable[slot] in m.info);
      if slot !in m.newTable || IsTerrible(m.info[m.newTable[slot]], now)
         || (m.info[m.newTable[slot]].refs > 1 && i.refs == 0) then
        var c :- ClearNew(m, slot);
        :- Assert(id in c.info);
        Some(Link(c, id, slot, c.info[id].refs + 1))
      else if i.refs == 0 then Delete(m, id)
      else Some(m)
  }

  /** Add_ for an address that has an entry. */
  function AddKnown(
    cfg: Config, m: Manager, id: int, addr: Address, source: NetAddr, penalty: int, now: int, random: nat)
    : Option<Manager>
    requires id in m.info
  {
    var i := Refreshed(m.info[id], addr, penalty, now);
    var r := SetInfo(m, id, i);
    if WantsReference(i, addr, random) then PlaceNew(cfg, r, id, source, now) else Some(r)
  }

  /** The manager when an address has been given an entry. */
  function Enrolled(m: Manager, addr: Address, source: NetAddr, penalty: int): (r: Manager)
    ensures m.nextId in r.info
  {
    var c := Create(m, addr.(time := Max(0, addr.time - penalty)), source);
    c.(nNew := c.nNew + 1)
  }

  /** Add_ for an address that has none. */
  function AddUnknown(cfg: Config, m: Manager, addr: Address, source: NetAddr, penalty: int, now: int)
    : Option<Manager>
  {
    PlaceNew(cfg, Enrolled(m, addr, source, penalty), m.nextId, source, now)
  }

  /** The manager after Add_ and whether Add_ says the address is new. */
  function Add(cfg: Config, m: Manager, addr: Address, source: NetAddr, penalty: int, now: int, random: nat)
    : Option<(Manager, bool)>
  {
    if !cfg.routable(addr.service.addr) then Some((m, false))
    else
      var p := if addr.service.addr == source then 0 else penalty;
      match Find(m, addr.service.addr)
      case Some(id) =>
        var r :- AddKnown(cfg, m, id, addr, source, p, now, random);
        Some((r, false))
      case None =>
        var r :- AddUnknown(cfg, m, addr, source, p, now);
        Some((r, true))
  }

  function Attempt(m: Manager, addr: Service, countFailure: bool, time: int): Manager {
    match Find(m, addr.addr)
    case None => m
    case Some(id) =>
      var i := m.info[id];
      if i.addr.service != addr then m
      else if countFailure && i.lastCount < m.lastGood
      then SetInfo(m, id, i.(lastTry := time, lastCount := time, attempts := i.attempts + 1))
      else SetInfo(m, id, i.(lastTry := time))
  }

  function Connected(m: Manager, addr: Service, time: int): Manager {
    match Find(m, addr.addr)
    case None => m
    case Some(id) =>
      var i := m.info[id];
      if i.addr.service == addr && time - i.addr.time > 20 * 60
      then SetInfo(m, id, i.(addr := i.addr.(time := time))) else m
  }

  function SetServices(m: Manager, addr: Service, services: set<nat>): Manager {
    match Find(m, addr.addr)
    case None => m
    case Some(id) =>
      var i := m.info[id];
      if i.addr.service == addr then SetInfo(m, id, i.(addr := i.addr.(services := services))) else m
  }

  function GetAddrLimit(m: Manager): nat {
    var n := GETADDR_MAX_PCT * |m.order| / 100;
    if n > GETADDR_MAX then GETADDR_MAX else n
  }

  /** One of the places from `n` on, drawn by a random number. */
  function DrawnPlace(r: nat, n: nat, size: nat): (j: nat)
    requires n < size
    ensures n <= j < size
  {
    r % (size - n) + n
  }

  /** GetAddr_ from loop index `n` on; `random(n)` picks the position swapped
      to `n`. */
  function GetAddrFrom(m: Manager, n: nat, limit: nat, random: nat -> nat, now: int, out: seq<Address>)
    : Option<(Manager, seq<Address>)>
    decreases |m.order| - n
  {
    if n >= |m.order| || |out| >= limit then Some((m, out))
    else
      var s :- SwapRandom(m, n, DrawnPlace(random(n), n, |m.order|));
      :- Assert(|s.order| == |m.order| && s.order[n] in s.info);
      var i := s.info[s.order[n]];
      GetAddrFrom(s, n + 1, limit, random, now, if IsTerrible(i, now) then out else out + [i.addr])
  }

  function GetAddr(m: Manager, random: nat -> nat, now: int): Option<(Manager, seq<Address>)> {
    GetAddrFrom(m, 0, GetAddrLimit(m), random, now, [])
  }
}
