/**
  Writing the address manager to a stream and reading it back
  (src/addrman.h).  The stream is a value, field by field; `Unserialize` is
  defined for every stream, the round trip is proved for the streams that
  `Serialize` makes of a consistent manager.
 */
module AddrManDisk {
  import opened Common
  import opened AddrMan
  import opened AddrManInv

  const FLAG := 0x4000_0000

  /** What is written of an entry. */
  datatype Record = Record(addr: Address, source: NetAddr, lastSuccess: int, attempts: int)

  datatype Stream = Stream(
    version: int, keySize: int, key: int, nNew: int, nTried: int, nUBuckets: int,
    news: seq<Record>, tried: seq<Record>, buckets: seq<seq<int>>)

  /** Exclusive or with 2^30, for a number below 2^31. */
  function FlipFlag(n: int): int {
    if (n / FLAG) % 2 == 1 then n - FLAG else n + FLAG
  }

  function ToRecord(i: Info): Record {
    Record(i.addr, i.source, i.lastSuccess, i.attempts)
  }

  // ----- writing

  /** `ids` lists the entries in the order of the map: by increasing id. */
  predicate Listing(m: Manager, ids: seq<int>) {
    && (forall i, j | 0 <= i < j < |ids| :: ids[i] < ids[j])
    && (forall i | 0 <= i < |ids| :: ids[i] in m.info)
    && (forall id | id in m.info :: id in ids)
  }

  predicate IsChosen(i: Info, referenced: bool) {
    if referenced then i.refs != 0 else i.tried
  }

  /** The entries with references, or those that are tried, in the order of the
      map. */
  function Chosen(m: Manager, ids: seq<int>, n: nat, referenced: bool): (r: seq<int>)
    requires n <= |ids| && forall i | 0 <= i < |ids| :: ids[i] in m.info
    ensures forall i | 0 <= i < |r| :: r[i] in m.info
  {
    if n == 0 then []
    else
      var rest := Chosen(m, ids, n - 1, referenced);
      if IsChosen(m.info[ids[n - 1]], referenced) then rest + [ids[n - 1]] else rest
  }

  function Records(m: Manager, ids: seq<int>): seq<Record>
    requires forall i | 0 <= i < |ids| :: ids[i] in m.info
  {
    seq(|ids|, i requires 0 <= i < |ids| => ToRecord(m.info[ids[i]]))
  }

  /** The number of an entry in the list, or the length of the list. */
  function IndexOf(ids: seq<int>, id: int): (k: nat)
    ensures k <= |ids| && (k < |ids| ==> ids[k] == id) && (k == |ids| ==> id !in ids)
  {
    if ids == [] then 0 else if ids[0] == id then 0 else 1 + IndexOf(ids[1..], id)
  }

  /** The numbers of the entries in the first `n` places of a bucket. */
  function BucketList(m: Manager, news: seq<int>, b: nat, n: nat): seq<int> {
    if n == 0 then []
    else
      var rest := BucketList(m, news, b, n - 1);
      var slot := Slot(b, n - 1);
      if slot in m.newTable then rest + [IndexOf(news, m.newTable[slot])] else rest
  }

  /** mapUnkIds: how many referenced entries come before, and 0 for an entry that
      is not there. */
  function UnkId(m: Manager, ids: seq<int>, id: int): nat
    requires forall i | 0 <= i < |ids| :: ids[i] in m.info
  {
    if id in ids then |Chosen(m, ids, IndexOf(ids, id), true)| else 0
  }

  function BucketIds(m: Manager, ids: seq<int>, b: nat, n: nat): seq<int>
    requires forall i | 0 <= i < |ids| :: ids[i] in m.info
  {
    if n == 0 then []
    else
      var rest := BucketIds(m, ids, b, n - 1);
      var slot := Slot(b, n - 1);
      if slot in m.newTable then rest + [UnkId(m, ids, m.newTable[slot])] else rest
  }

  /** The loop over the map that writes the chosen entries, and asserts before
      each that their announced number is not yet reached. */
  function WriteEntries(m: Manager, ids: seq<int>, n: nat, referenced: bool, announced: int): Option<seq<int>>
    requires n <= |ids| && forall i | 0 <= i < |ids| :: ids[i] in m.info
  {
    if n == 0 then Some([])
    else
      var rest :- WriteEntries(m, ids, n - 1, referenced, announced);
      if !IsChosen(m.info[ids[n - 1]], referenced) then Some(rest)
      else
        :- Assert(|rest| != announced);
        Some(rest + [ids[n - 1]])
  }

  /** `None` where an assertion fires. */
  function Serialize(cfg: Config, m: Manager, ids: seq<int>): Option<Stream>
    requires Listing(m, ids)
  {
    var news :- WriteEntries(m, ids, |ids|, true, m.nNew);
    var tried :- WriteEntries(m, ids, |ids|, false, m.nTried);
    assert forall i | 0 <= i < |news| :: news[i] in m.info by {
      WriteEntriesIs(m, ids, |ids|, true, m.nNew);
    }
    assert forall i | 0 <= i < |tried| :: tried[i] in m.info by {
      WriteEntriesIs(m, ids, |ids|, false, m.nTried);
    }
    Some(Stream(1, 32, cfg.key, m.nNew, m.nTried, FlipFlag(NEW_BUCKET_COUNT), Records(m, news), Records(m, tried),
                seq(NEW_BUCKET_COUNT, b requires 0 <= b < NEW_BUCKET_COUNT => BucketIds(m, ids, b, BUCKET_SIZE))))
  }

  /** An assertion fires exactly if more entries are chosen than announced. */
  lemma {:induction false} WriteEntriesIs(m: Manager, ids: seq<int>, n: nat, referenced: bool, announced: int)
    requires n <= |ids| && forall i | 0 <= i < |ids| :: ids[i] in m.info
    ensures WriteEntries(m, ids, n, referenced, announced) ==
              if 0 <= announced < |Chosen(m, ids, n, referenced)| then None else Some(Chosen(m, ids, n, referenced))
  {
    if n > 0 {
      WriteEntriesIs(m, ids, n - 1, referenced, announced);
    }
  }

  // ----- reading

  /** An entry as read, placed last in the order. */
  function Enter(m: Manager, id: int, r: Record): Manager {
    m.(info := m.info[id := Info(r.addr, r.source, 0, 0, r.lastSuccess, r.attempts, 0, false, |m.order|)],
       ids := m.ids[r.addr.service.addr := id], order := m.order + [id])
  }

  /** The first `n` records of the new table.  Without bucket data to rely on,
      each entry is at once given its home slot if that is free. */
  function LoadNew(cfg: Config, m: Manager, recs: seq<Record>, n: nat, usable: bool): (r: Manager)
    requires n <= |recs|
  {
    if n == 0 then m
    else
      var id := n - 1;
      var p := Enter(LoadNew(cfg, m, recs, id, usable), id, recs[id]);
      var home := HomeSlot(cfg, p.info[id]);
      if usable || home in p.newTable then p else Link(p, id, home, p.info[id].refs + 1)
  }

  /** The first `n` records of the tried table; one whose slot is taken is
      lost. */
  function LoadTried(cfg: Config, m: Manager, recs: seq<Record>, n: nat): Manager
    requires n <= |recs|
  {
    if n == 0 then m
    else
      var p := LoadTried(cfg, m, recs, n - 1);
      var rec := recs[n - 1];
      var slot := TriedSlot(cfg, rec.addr.service);
      if slot in p.triedTable then p.(nTried := p.nTried - 1)
      else
        var e := Enter(p, p.nextId, rec);
        e.(info := e.info[p.nextId := e.info[p.nextId].(tried := true)],
           triedTable := e.triedTable[slot := p.nextId], nextId := p.nextId + 1)
  }

  /** One number of a bucket's list. */
  function LoadIndex(cfg: Config, m: Manager, b: nat, index: int, usable: bool): Manager {
    if !(0 <= index < m.nNew && index in m.info) then m
    else
      var slot := NewSlot(cfg, m.info[index].addr.service, b);
      if usable && slot !in m.newTable && m.info[index].refs < NEW_BUCKETS_PER_ADDRESS
      then Link(m, index, slot, m.info[index].refs + 1) else m
  }

  function LoadBucket(cfg: Config, m: Manager, b: nat, list: seq<int>, n: nat, usable: bool): Manager
    requires n <= |list|
  {
    if n == 0 then m else LoadIndex(cfg, LoadBucket(cfg, m, b, list, n - 1, usable), b, list[n - 1], usable)
  }

  function LoadBuckets(cfg: Config, m: Manager, buckets: seq<seq<int>>, n: nat, usable: bool): Manager
    requires n <= |buckets|
  {
    if n == 0 then m
    else LoadBucket(cfg, LoadBuckets(cfg, m, buckets, n - 1, usable), n - 1, buckets[n - 1], |buckets[n - 1]|, usable)
  }

  /** Deletes the entries below `n` that ended up without reference. */
  function Prune(m: Manager, n: nat): Option<Manager> {
    if n == 0 then Some(m)
    else
      var p :- Prune(m, n - 1);
      PruneOne(p, n - 1)
  }

  function PruneOne(m: Manager, id: int): Option<Manager> {
    if IsBare(m, id) then Delete(m, id) else Some(m)
  }

  /** Neither tried nor referenced. */
  predicate IsBare(m: Manager, id: int) {
    id in m.info && !m.info[id].tried && m.info[id].refs == 0
  }

  /** `None` where the stream is refused, ends early or an assertion fires. */
  function Unserialize(cfg: Config, s: Stream): Option<Manager> {
    var c := cfg.(key := s.key);
    :- Assert(s.keySize == 32);
    var nUBuckets := if s.version != 0 then FlipFlag(s.nUBuckets) else s.nUBuckets;
    :- Assert(s.nNew <= NEW_BUCKET_COUNT * BUCKET_SIZE);
    :- Assert(s.nTried <= TRIED_BUCKET_COUNT * BUCKET_SIZE);
    :- Assert(|s.news| == Max(0, s.nNew) && |s.tried| == Max(0, s.nTried) && |s.buckets| == Max(0, nUBuckets));
    var usable := s.version == 1 && nUBuckets == NEW_BUCKET_COUNT;
    var n := LoadNew(c, EMPTY.(nNew := s.nNew, nTried := s.nTried), s.news, |s.news|, usable);
    var t := LoadTried(c, n.(nextId := s.nNew), s.tried, |s.tried|);
    var b := LoadBuckets(c, t, s.buckets, |s.buckets|, usable);
    Prune(b, Max(0, b.nextId))
  }

  // ----- the round trip

  /** A renumbering of the entries of `m`: number `k` is entry `list[k]`, the
      first `base` numbers are the entries that are not tried. */
  ghost predicate Numbering(cfg: Config, m: Manager, list: seq<int>, base: nat) {
    && Inv(cfg, m)
    && base == m.nNew && |list| == m.nNew + m.nTried
    && (forall k | 0 <= k < |list| :: list[k] in m.info && (m.info[list[k]].tried <==> k >= base))
    && (forall j, k | 0 <= j < k < |list| :: list[j] != list[k])
    && (forall id | id in m.info :: id in list)
  }

  /** Entry `k` is what is left of entry `list[k]` after a restart. */
  predicate ImageAt(m: Manager, list: seq<int>, base: nat, info: Infos, k: int)
    requires 0 <= k < |list| && list[k] in m.info && k in info
  {
    var i := m.info[list[k]];
    info[k] == Info(i.addr, i.source, 0, 0, i.lastSuccess, i.attempts, info[k].refs, k >= base, k)
  }

  /** The first `n` entries of the list, in that order. */
  ghost predicate Images(m: Manager, list: seq<int>, base: nat, info: Infos, order: seq<int>, n: nat)
    requires n <= |list| && forall k | 0 <= k < |list| :: list[k] in m.info
  {
    && |order| == n && (forall k | 0 <= k < n :: order[k] == k)
    && (forall k | k in info :: 0 <= k < n)
    && (forall k {:trigger k in info} | 0 <= k < n :: k in info)
    && (forall k {:trigger ImageAt(m, list, base, info, k)} | 0 <= k < n :: ImageAt(m, list, base, info, k))
  }

  lemma {:induction false} EnterKeeps(cfg: Config, m: Manager, rec: Record, x: int)
    requires Shape(cfg, m) && Counted(m, x) && m.nextId >= 0
    requires rec.addr.service.addr !in m.ids
    ensures m.nextId !in m.info
    ensures var r := Enter(m, m.nextId, rec).(nextId := m.nextId + 1);
            Shape(cfg, r) && Counted(r, x - 1)
  {
    var id := m.nextId;
    CreateKeeps(cfg, m, rec.addr, rec.source, x, m.info.Keys);
    var c := Create(m, rec.addr, rec.source);
    var i := c.info[id].(lastSuccess := rec.lastSuccess, attempts := rec.attempts);
    SetInfoKeeps(cfg, c, id, i, x - 1, c.info.Keys);
    assert SetInfo(c, id, i) == Enter(m, id, rec).(nextId := id + 1);
  }

  /** An address that is not yet among the images has no id. */
  lemma {:induction false} NotYetKnown(cfg: Config, m: Manager, list: seq<int>, base: nat, r: Manager, n: nat)
    requires Numbering(cfg, m, list, base) && n < |list|
    requires Images(m, list, base, r.info, r.order, n) && Indexed(r.info, r.ids, r.nextId)
    ensures m.info[list[n]].addr.service.addr !in r.ids
  {
    var a := m.info[list[n]].addr.service.addr;
    assert IndexedAt(m.info, m.ids, m.nextId, list[n]);
    forall k | k in r.info
      ensures r.info[k].addr.service.addr != a
    {
      assert ImageAt(m, list, base, r.info, k);
      assert IndexedAt(m.info, m.ids, m.nextId, list[k]);
    }
    assert a in r.ids ==> AddrAt(r.info, r.ids, a);
  }

  lemma {:induction false} EnterImages(m: Manager, list: seq<int>, base: nat, r: Manager, n: nat)
    requires n < |list| && (forall k | 0 <= k < |list| :: list[k] in m.info)
    requires Images(m, list, base, r.info, r.order, n)
    ensures var e := Enter(r, n, ToRecord(m.info[list[n]]));
            Images(m, list, base, e.info[n := e.info[n].(tried := n >= base)], e.order, n + 1)
  {
    var e := Enter(r, n, ToRecord(m.info[list[n]]));
    var info := e.info[n := e.info[n].(tried := n >= base)];
    forall k | 0 <= k < n + 1
      ensures k in info && ImageAt(m, list, base, info, k)
    {
      assert k < n ==> k in r.info && ImageAt(m, list, base, r.info, k);
    }
  }

  /** After `n` records of the new table. */
  ghost predicate NewLoaded(cfg: Config, m: Manager, list: seq<int>, base: nat, r: Manager, n: nat)
    requires Numbering(cfg, m, list, base) && n <= |list|
  {
    && Images(m, list, base, r.info, r.order, n) && r.newTable == map[] && r.triedTable == map[]
    && r.nNew == m.nNew && r.nTried == m.nTried && r.nextId == 0 && r.lastGood == 1
    && var q := r.(nextId := n, nTried := 0); Shape(cfg, q) && Counted(q, m.nNew - n)
  }

  lemma {:induction false} LoadNewShape(
    cfg: Config, m: Manager, list: seq<int>, base: nat, p: Manager, n: nat, rec: Record, e: Manager)
    requires Numbering(cfg, m, list, base) && n < base && NewLoaded(cfg, m, list, base, p, n)
    requires rec == ToRecord(m.info[list[n]]) && e == Enter(p, n, rec)
    ensures var q := e.(nextId := n + 1, nTried := 0); Shape(cfg, q) && Counted(q, m.nNew - (n + 1))
  {
    var q := p.(nextId := n, nTried := 0);
    NotYetKnown(cfg, m, list, base, q, n);
    EnterKeeps(cfg, q, rec, m.nNew - n);
    assert Enter(q, n, rec).(nextId := n + 1) == e.(nextId := n + 1, nTried := 0);
  }

  lemma {:induction false} LoadNewStep(
    cfg: Config, m: Manager, list: seq<int>, base: nat, p: Manager, n: nat, rec: Record, e: Manager)
    requires Numbering(cfg, m, list, base) && n < base && NewLoaded(cfg, m, list, base, p, n)
    requires rec == ToRecord(m.info[list[n]]) && e == Enter(p, n, rec)
    ensures NewLoaded(cfg, m, list, base, e, n + 1)
  {
    LoadNewShape(cfg, m, list, base, p, n, rec, e);
    EnterImages(m, list, base, p, n);
    assert e.info[n := e.info[n].(tried := false)] == e.info;
  }

  lemma {:induction false} LoadNewNext(
    cfg: Config, m: Manager, list: seq<int>, base: nat, start: Manager, recs: seq<Record>, n: nat,
    p: Manager, r: Manager)
    requires Numbering(cfg, m, list, base) && n < base == |recs| && NewLoaded(cfg, m, list, base, p, n)
    requires recs[n] == ToRecord(m.info[list[n]])
    requires p == LoadNew(cfg, start, recs, n, true) && r == LoadNew(cfg, start, recs, n + 1, true)
    ensures NewLoaded(cfg, m, list, base, r, n + 1)
  {
    LoadNewStep(cfg, m, list, base, p, n, recs[n], r);
  }

  /** From `p`, which has the first `n` records, to the end. */
  lemma {:induction false} LoadNewAll(
    cfg: Config, m: Manager, list: seq<int>, base: nat, start: Manager, recs: seq<Record>, n: nat, p: Manager)
    requires Numbering(cfg, m, list, base) && n <= base == |recs| && RecordsOf(m, list, 0, recs)
    requires NewLoaded(cfg, m, list, base, p, n) && p == LoadNew(cfg, start, recs, n, true)
    ensures NewLoaded(cfg, m, list, base, LoadNew(cfg, start, recs, base, true), base)
    decreases base - n
  {
    if n < base {
      var r := LoadNew(cfg, start, recs, n + 1, true);
      LoadNewNext(cfg, m, list, base, start, recs, n, p, r);
      LoadNewAll(cfg, m, list, base, start, recs, n + 1, r);
    }
  }

  lemma {:induction false} LoadNewStart(cfg: Config, m: Manager, list: seq<int>, base: nat, start: Manager)
    requires Numbering(cfg, m, list, base) && start == EMPTY.(nNew := m.nNew, nTried := m.nTried)
    ensures NewLoaded(cfg, m, list, base, start, 0)
  {
    assert NewIds(start.info) == {} && TriedIds(start.info) == {};
  }

  // ----- the tried table

  /** After `n` records of the tried table. */
  ghost predicate TriedLoaded(cfg: Config, m: Manager, list: seq<int>, base: nat, r: Manager, n: nat)
    requires Numbering(cfg, m, list, base) && base + n <= |list|
  {
    && Images(m, list, base, r.info, r.order, base + n) && r.newTable == map[]
    && r.nNew == m.nNew && r.nTried == m.nTried && r.nextId == base + n && r.lastGood == 1
    && var q := r.(nTried := n); Shape(cfg, q) && Counted(q, 0)
  }

  lemma {:induction false} SlotStillFree(cfg: Config, m: Manager, list: seq<int>, base: nat, r: Manager, n: nat)
    requires Numbering(cfg, m, list, base) && base <= n < |list|
    requires Images(m, list, base, r.info, r.order, n) && TriedPlaced(cfg, r.info, r.triedTable)
    ensures TriedSlot(cfg, m.info[list[n]].addr.service) !in r.triedTable
  {
    var slot := TriedSlot(cfg, m.info[list[n]].addr.service);
    assert TriedAt(cfg, m.info, m.triedTable, list[n]);
    forall k | k in r.info && r.info[k].tried
      ensures TriedSlot(cfg, r.info[k].addr.service) != slot
    {
      assert ImageAt(m, list, base, r.info, k);
      assert TriedAt(cfg, m.info, m.triedTable, list[k]);
    }
    assert slot in r.triedTable ==> TriedSlotAt(cfg, r.info, r.triedTable, slot);
  }

  /** The manager after one more tried record that finds its slot free. */
  function EnterTried(cfg: Config, p: Manager, rec: Record): Manager {
    var e := Enter(p, p.nextId, rec);
    e.(info := e.info[p.nextId := e.info[p.nextId].(tried := true)],
       triedTable := e.triedTable[TriedSlot(cfg, rec.addr.service) := p.nextId], nextId := p.nextId + 1)
  }

  lemma {:induction false} EnterTriedKeeps(cfg: Config, p: Manager, rec: Record)
    requires Shape(cfg, p) && Counted(p, 0) && p.nextId >= 0
    requires rec.addr.service.addr !in p.ids
    requires TriedSlot(cfg, rec.addr.service) !in p.triedTable
    ensures var r := EnterTried(cfg, p, rec).(nTried := p.nTried + 1); Shape(cfg, r) && Counted(r, 0)
  {
    var id := p.nextId;
    EnterKeeps(cfg, p, rec, 0);
    var e := Enter(p, id, rec).(nextId := id + 1);
    PutTriedKeeps(cfg, e, id, -1, e.info.Keys);
  }

  /** The next record finds its slot free and its address unknown. */
  lemma {:induction false} TriedRoom(
    cfg: Config, m: Manager, list: seq<int>, base: nat, p: Manager, n: nat, rec: Record)
    requires Numbering(cfg, m, list, base) && base + n < |list| && TriedLoaded(cfg, m, list, base, p, n)
    requires rec == ToRecord(m.info[list[base + n]])
    ensures TriedSlot(cfg, rec.addr.service) !in p.triedTable && rec.addr.service.addr !in p.ids
  {
    var q := p.(nTried := n);
    NotYetKnown(cfg, m, list, base, q, base + n);
    SlotStillFree(cfg, m, list, base, q, base + n);
  }

  lemma {:induction false} LoadTriedShape(cfg: Config, p: Manager, n: nat, rec: Record, e: Manager)
    requires var q := p.(nTried := n); Shape(cfg, q) && Counted(q, 0) && q.nextId >= 0
    requires rec.addr.service.addr !in p.ids && TriedSlot(cfg, rec.addr.service) !in p.triedTable
    requires e == EnterTried(cfg, p, rec)
    ensures var q := e.(nTried := n + 1); Shape(cfg, q) && Counted(q, 0)
  {
    var q := p.(nTried := n);
    EnterTriedKeeps(cfg, q, rec);
    assert EnterTried(cfg, q, rec).(nTried := n + 1) == e.(nTried := n + 1);
  }

  lemma {:induction false} LoadTriedStep(
    cfg: Config, m: Manager, list: seq<int>, base: nat, p: Manager, n: nat, rec: Record, e: Manager)
    requires Numbering(cfg, m, list, base) && base + n < |list| && TriedLoaded(cfg, m, list, base, p, n)
    requires rec == ToRecord(m.info[list[base + n]])
    requires TriedSlot(cfg, rec.addr.service) !in p.triedTable && rec.addr.service.addr !in p.ids
    requires e == EnterTried(cfg, p, rec)
    ensures TriedLoaded(cfg, m, list, base, e, n + 1)
  {
    LoadTriedShape(cfg, p, n, rec, e);
    EnterImages(m, list, base, p, base + n);
  }

  lemma {:induction false} LoadTriedNext(
    cfg: Config, m: Manager, list: seq<int>, base: nat, p: Manager, recs: seq<Record>, n: nat, q: Manager, r: Manager)
    requires Numbering(cfg, m, list, base) && n < |recs| && base + n < |list| && TriedLoaded(cfg, m, list, base, q, n)
    requires recs[n] == ToRecord(m.info[list[base + n]])
    requires q == LoadTried(cfg, p, recs, n) && r == LoadTried(cfg, p, recs, n + 1)
    ensures TriedLoaded(cfg, m, list, base, r, n + 1)
  {
    TriedRoom(cfg, m, list, base, q, n, recs[n]);
    LoadTriedUnfold(cfg, p, recs, n + 1, q, recs[n]);
    LoadTriedStep(cfg, m, list, base, q, n, recs[n], r);
  }

  /** The records of the list from number `base` on. */
  ghost predicate RecordsOf(m: Manager, list: seq<int>, base: nat, recs: seq<Record>) {
    forall k {:trigger recs[k]} | 0 <= k < |recs| ::
      base + k < |list| && list[base + k] in m.info && recs[k] == ToRecord(m.info[list[base + k]])
  }

  /** From `q`, which has the first `n` records, to the end. */
  lemma {:induction false} LoadTriedAll(
    cfg: Config, m: Manager, list: seq<int>, base: nat, p: Manager, recs: seq<Record>, n: nat, q: Manager)
    requires Numbering(cfg, m, list, base) && n <= |recs| == |list| - base && RecordsOf(m, list, base, recs)
    requires TriedLoaded(cfg, m, list, base, q, n) && q == LoadTried(cfg, p, recs, n)
    ensures TriedLoaded(cfg, m, list, base, LoadTried(cfg, p, recs, |recs|), |recs|)
    decreases |recs| - n
  {
    if n < |recs| {
      var r := LoadTried(cfg, p, recs, n + 1);
      LoadTriedNext(cfg, m, list, base, p, recs, n, q, r);
      LoadTriedAll(cfg, m, list, base, p, recs, n + 1, r);
    }
  }

  lemma {:induction false} LoadTriedUnfold(cfg: Config, p: Manager, recs: seq<Record>, n: nat, q: Manager, rec: Record)
    requires 0 < n <= |recs| && q == LoadTried(cfg, p, recs, n - 1) && rec == recs[n - 1]
    requires TriedSlot(cfg, rec.addr.service) !in q.triedTable
    ensures LoadTried(cfg, p, recs, n) == EnterTried(cfg, q, rec)
  {
  }

  // ----- the buckets

  predicate SlotImage(m: Manager, list: seq<int>, base: nat, table: Table, s: Slot)
    requires base <= |list|
  {
    s in table && s in m.newTable && 0 <= table[s] < base && list[table[s]] == m.newTable[s]
  }

  /** The slots before place `i` of bucket `b` are filled as in `m`, the others
      are empty. */
  ghost predicate SlotsLoaded(m: Manager, list: seq<int>, base: nat, table: Table, b: nat, i: nat)
    requires base <= |list|
  {
    && (forall s {:trigger SlotImage(m, list, base, table, s)} | s in table ::
          Before(s, b, i) && SlotImage(m, list, base, table, s))
    && (forall s {:trigger s in m.newTable} | s in m.newTable && Before(s, b, i) :: s in table)
  }

  ghost predicate BucketsLoaded(cfg: Config, m: Manager, list: seq<int>, base: nat, r: Manager, b: nat, i: nat)
    requires Numbering(cfg, m, list, base)
  {
    && Images(m, list, base, r.info, r.order, |list|)
    && r.nNew == m.nNew && r.nTried == m.nTried && r.nextId == |list| && r.lastGood == 1
    && Shape(cfg, r) && Counted(r, 0)
    && SlotsLoaded(m, list, base, r.newTable, b, i)
  }

  /** Fewer references so far than in the end, hence fewer than eight. */
  lemma {:induction false} ReferenceLeft(
    cfg: Config, m: Manager, list: seq<int>, base: nat, r: Manager, b: nat, i: nat, k: nat)
    requires Numbering(cfg, m, list, base) && BucketsLoaded(cfg, m, list, base, r, b, i)
    requires Slot(b, i) in m.newTable && k < base && list[k] == m.newTable[Slot(b, i)]
    ensures k in r.info && r.info[k].refs < NEW_BUCKETS_PER_ADDRESS
    ensures NewSlot(cfg, r.info[k].addr.service, b) == Slot(b, i) && b < NEW_BUCKET_COUNT
    ensures Slot(b, i) !in r.newTable
  {
    var slot, id := Slot(b, i), list[k];
    Occupant(cfg, m, slot);
    assert k in r.info && ImageAt(m, list, base, r.info, k);
    var s := m.info[id].addr.service;
    assert RefsAt(cfg, m.info, m.newTable, id) && RefsAt(cfg, r.info, r.newTable, k);
    forall t | t in r.newTable
      ensures t != slot
    {
      assert SlotImage(m, list, base, r.newTable, t);
    }
    var here, there := Buckets(cfg, s, r.newTable, k), Buckets(cfg, s, m.newTable, id);
    forall c | c in here
      ensures c in there - {b}
    {
      assert InBucket(cfg, s, r.newTable, k, c);
      assert SlotImage(m, list, base, r.newTable, NewSlot(cfg, s, c));
      assert InBucket(cfg, s, m.newTable, id, c);
    }
    assert InBucket(cfg, s, m.newTable, id, b) && b in there;
    SubsetSize(here, there - {b});
  }

  lemma {:induction false} LinkImages(m: Manager, list: seq<int>, base: nat, r: Manager, k: int, slot: Slot, refs: int)
    requires (forall j | 0 <= j < |list| :: list[j] in m.info) && Images(m, list, base, r.info, r.order, |list|)
    requires k in r.info
    ensures Images(m, list, base, Link(r, k, slot, refs).info, r.order, |list|)
  {
    var info := Link(r, k, slot, refs).info;
    forall j | 0 <= j < |list|
      ensures j in info && ImageAt(m, list, base, info, j)
    {
      assert j in r.info && ImageAt(m, list, base, r.info, j);
    }
  }

  lemma {:induction false} SlotsStep(m: Manager, list: seq<int>, base: nat, table: Table, b: nat, i: nat, k: nat)
    requires base <= |list| && SlotsLoaded(m, list, base, table, b, i)
    requires Slot(b, i) in m.newTable && k < base && list[k] == m.newTable[Slot(b, i)]
    ensures SlotsLoaded(m, list, base, table[Slot(b, i) := k], b, i + 1)
  {
    var t := table[Slot(b, i) := k];
    forall s | s in t
      ensures Before(s, b, i + 1) && SlotImage(m, list, base, t, s)
    {
      assert s != Slot(b, i) ==> SlotImage(m, list, base, table, s);
    }
    forall s | s in m.newTable && Before(s, b, i + 1)
      ensures s in t
    {
      assert s == Slot(s.bucket, s.pos);
      assert s != Slot(b, i) ==> Before(s, b, i) && s in table;
    }
  }

  lemma {:induction false} SlotsSkip(m: Manager, list: seq<int>, base: nat, table: Table, b: nat, i: nat)
    requires base <= |list| && SlotsLoaded(m, list, base, table, b, i) && Slot(b, i) !in m.newTable
    ensures SlotsLoaded(m, list, base, table, b, i + 1)
  {
    forall s | s in table
      ensures Before(s, b, i + 1)
    {
      assert SlotImage(m, list, base, table, s);
    }
    forall s | s in m.newTable && Before(s, b, i + 1)
      ensures s in table
    {
      assert s == Slot(s.bucket, s.pos);
      assert s != Slot(b, i) && Before(s, b, i);
    }
  }

  lemma {:induction false} LoadIndexStep(
    cfg: Config, m: Manager, list: seq<int>, base: nat, r: Manager, b: nat, i: nat, k: nat, e: Manager)
    requires Numbering(cfg, m, list, base) && BucketsLoaded(cfg, m, list, base, r, b, i)
    requires Slot(b, i) in m.newTable && k < base && list[k] == m.newTable[Slot(b, i)]
    requires e == LoadIndex(cfg, r, b, k, true)
    ensures BucketsLoaded(cfg, m, list, base, e, b, i + 1)
  {
    ReferenceLeft(cfg, m, list, base, r, b, i, k);
    assert ImageAt(m, list, base, r.info, k);
    LinkKeeps(cfg, r, k, b, 0, r.info.Keys);
    LinkImages(m, list, base, r, k, Slot(b, i), r.info[k].refs + 1);
    SlotsStep(m, list, base, r.newTable, b, i, k);
  }

  lemma {:induction false} LoadBucketPrefix(
    cfg: Config, m: Manager, b: nat, list: seq<int>, longer: seq<int>, n: nat)
    requires n <= |list| <= |longer| && longer[..|list|] == list
    ensures LoadBucket(cfg, m, b, list, n, true) == LoadBucket(cfg, m, b, longer, n, true)
  {
    if n > 0 {
      LoadBucketPrefix(cfg, m, b, list, longer, n - 1);
      assert longer[..|list|][n - 1] == longer[n - 1];
    }
  }

  lemma {:induction false} NumberOf(cfg: Config, m: Manager, list: seq<int>, base: nat, slot: Slot)
    requires Numbering(cfg, m, list, base) && slot in m.newTable
    ensures var k := IndexOf(list[..base], m.newTable[slot]); k < base && list[k] == m.newTable[slot]
  {
    Occupant(cfg, m, slot);
    var id := m.newTable[slot];
    assert id in list;
    var j :| 0 <= j < |list| && list[j] == id;
    assert list[..base][j] == id;
  }

  /** The list of a bucket with one more place, read. */
  lemma {:induction false} LoadBucketNext(
    cfg: Config, m: Manager, p: Manager, b: nat, news: seq<int>, n: nat, l: seq<int>, l': seq<int>)
    requires l == BucketList(m, news, b, n) && l' == BucketList(m, news, b, n + 1)
    ensures var q := LoadBucket(cfg, p, b, l, |l|, true);
            LoadBucket(cfg, p, b, l', |l'|, true) ==
              if Slot(b, n) in m.newTable then LoadIndex(cfg, q, b, IndexOf(news, m.newTable[Slot(b, n)]), true) else q
  {
    if Slot(b, n) in m.newTable {
      assert l' == l + [IndexOf(news, m.newTable[Slot(b, n)])];
      LoadBucketPrefix(cfg, p, b, l, l', |l|);
    }
  }

  lemma {:induction false} LoadBucketAll(
    cfg: Config, m: Manager, list: seq<int>, base: nat, p: Manager, b: nat, n: nat, l: seq<int>, r: Manager)
    requires Numbering(cfg, m, list, base) && BucketsLoaded(cfg, m, list, base, p, b, 0)
    requires l == BucketList(m, list[..base], b, n) && r == LoadBucket(cfg, p, b, l, |l|, true)
    ensures BucketsLoaded(cfg, m, list, base, r, b, n)
    decreases n
  {
    if n > 0 {
      var k := BucketList(m, list[..base], b, n - 1);
      var q := LoadBucket(cfg, p, b, k, |k|, true);
      LoadBucketAll(cfg, m, list, base, p, b, n - 1, k, q);
      LoadBucketNext(cfg, m, p, b, list[..base], n - 1, k, l);
      LoadPlace(cfg, m, list, base, q, b, n - 1, r);
    }
  }

  /** One place of a bucket, taken or not. */
  lemma {:induction false} LoadPlace(
    cfg: Config, m: Manager, list: seq<int>, base: nat, q: Manager, b: nat, i: nat, r: Manager)
    requires Numbering(cfg, m, list, base) && BucketsLoaded(cfg, m, list, base, q, b, i)
    requires r == if Slot(b, i) in m.newTable
                  then LoadIndex(cfg, q, b, IndexOf(list[..base], m.newTable[Slot(b, i)]), true) else q
    ensures BucketsLoaded(cfg, m, list, base, r, b, i + 1)
  {
    if Slot(b, i) in m.newTable {
      NumberOf(cfg, m, list, base, Slot(b, i));
      LoadIndexStep(cfg, m, list, base, q, b, i, IndexOf(list[..base], m.newTable[Slot(b, i)]), r);
    } else {
      SlotsSkip(m, list, base, q.newTable, b, i);
    }
  }

  /** A full bucket is the beginning of the next. */
  lemma {:induction false} NextBucket(cfg: Config, m: Manager, list: seq<int>, base: nat, r: Manager, b: nat)
    requires Numbering(cfg, m, list, base) && BucketsLoaded(cfg, m, list, base, r, b, BUCKET_SIZE)
    ensures BucketsLoaded(cfg, m, list, base, r, b + 1, 0)
  {
    forall s | s in r.newTable
      ensures Before(s, b + 1, 0)
    {
      assert SlotImage(m, list, base, r.newTable, s);
    }
    forall s | s in m.newTable && Before(s, b + 1, 0)
      ensures s in r.newTable
    {
      Occupant(cfg, m, s);
      assert Before(s, b, BUCKET_SIZE);
    }
  }

  lemma {:induction false} LoadBucketsAll(
    cfg: Config, m: Manager, list: seq<int>, base: nat, p: Manager, buckets: seq<seq<int>>, n: nat, r: Manager)
    requires Numbering(cfg, m, list, base) && BucketsLoaded(cfg, m, list, base, p, 0, 0)
    requires n <= |buckets| && r == LoadBuckets(cfg, p, buckets, n, true)
    requires forall b | 0 <= b < |buckets| :: buckets[b] == BucketList(m, list[..base], b, BUCKET_SIZE)
    ensures BucketsLoaded(cfg, m, list, base, r, n, 0)
    decreases n
  {
    if n > 0 {
      var q := LoadBuckets(cfg, p, buckets, n - 1, true);
      LoadBucketsAll(cfg, m, list, base, p, buckets, n - 1, q);
      LoadBucketAll(cfg, m, list, base, q, n - 1, BUCKET_SIZE, buckets[n - 1], r);
      NextBucket(cfg, m, list, base, r, n - 1);
    }
  }

  // ----- the whole stream

  /** Nothing is left to prune. */
  lemma {:induction false} PruneNothing(r: Manager, n: nat)
    requires Settled(r.info, {})
    ensures Prune(r, n) == Some(r)
  {
    if n > 0 {
      PruneNothing(r, n - 1);
      PruneSettled(r, n - 1);
    }
  }

  lemma {:induction false} PruneSettled(r: Manager, id: int)
    requires Settled(r.info, {})
    ensures PruneOne(r, id) == Some(r)
  {
    assert id in r.info ==> SettledAt(r.info, id);
    assert !IsBare(r, id);
  }

  /** `r` is `m` with its entries renumbered: the same addresses and statistics,
      the same slots, the same reference counts, and nothing else. */
  ghost predicate Renumbered(m: Manager, r: Manager, list: seq<int>) {
    && (forall k | 0 <= k < |list| :: list[k] in m.info && k in r.info)
    && (forall id | id in m.info :: id in list)
    && (forall k | k in r.info :: 0 <= k < |list|)
    && (forall k | 0 <= k < |list| ::
          var i := m.info[list[k]];
          r.info[k] == Info(i.addr, i.source, 0, 0, i.lastSuccess, i.attempts, i.refs, i.tried, r.info[k].pos))
    && r.newTable.Keys == m.newTable.Keys
    && (forall s | s in m.newTable :: 0 <= r.newTable[s] < |list| && list[r.newTable[s]] == m.newTable[s])
    && r.triedTable.Keys == m.triedTable.Keys
    && (forall s | s in m.triedTable :: 0 <= r.triedTable[s] < |list| && list[r.triedTable[s]] == m.triedTable[s])
    && r.nNew == m.nNew && r.nTried == m.nTried
  }

  lemma {:induction false} RefsRestored(cfg: Config, m: Manager, list: seq<int>, base: nat, r: Manager, k: nat)
    requires Numbering(cfg, m, list, base) && BucketsLoaded(cfg, m, list, base, r, NEW_BUCKET_COUNT, 0)
    requires k < |list|
    ensures k in r.info && r.info[k].refs == m.info[list[k]].refs
  {
    var id := list[k];
    assert k in r.info && ImageAt(m, list, base, r.info, k);
    assert RefsAt(cfg, m.info, m.newTable, id) && RefsAt(cfg, r.info, r.newTable, k);
    var s := m.info[id].addr.service;
    forall b: nat | b < NEW_BUCKET_COUNT
      ensures InBucket(cfg, s, r.newTable, k, b) <==> InBucket(cfg, s, m.newTable, id, b)
    {
      var slot := NewSlot(cfg, s, b);
      assert slot in r.newTable ==> SlotImage(m, list, base, r.newTable, slot);
      assert slot in m.newTable && Before(slot, NEW_BUCKET_COUNT, 0) ==> slot in r.newTable;
    }
    assert Buckets(cfg, s, r.newTable, k) == Buckets(cfg, s, m.newTable, id);
  }

  lemma {:induction false} TriedRestored(cfg: Config, m: Manager, list: seq<int>, base: nat, r: Manager)
    requires Numbering(cfg, m, list, base) && BucketsLoaded(cfg, m, list, base, r, NEW_BUCKET_COUNT, 0)
    ensures r.triedTable.Keys == m.triedTable.Keys
    ensures forall s | s in m.triedTable :: 0 <= r.triedTable[s] < |list| && list[r.triedTable[s]] == m.triedTable[s]
  {
    forall s | s in m.triedTable
      ensures s in r.triedTable && 0 <= r.triedTable[s] < |list| && list[r.triedTable[s]] == m.triedTable[s]
    {
      assert TriedSlotAt(cfg, m.info, m.triedTable, s);
      var id := m.triedTable[s];
      assert id in list;
      var k :| 0 <= k < |list| && list[k] == id;
      assert k in r.info && ImageAt(m, list, base, r.info, k);
      assert TriedAt(cfg, r.info, r.triedTable, k);
    }
    forall s | s in r.triedTable
      ensures s in m.triedTable
    {
      assert TriedSlotAt(cfg, r.info, r.triedTable, s);
      var k := r.triedTable[s];
      assert k in r.info && ImageAt(m, list, base, r.info, k);
      assert TriedAt(cfg, m.info, m.triedTable, list[k]);
    }
  }

  lemma {:induction false} NewRestored(cfg: Config, m: Manager, list: seq<int>, base: nat, r: Manager)
    requires Numbering(cfg, m, list, base) && BucketsLoaded(cfg, m, list, base, r, NEW_BUCKET_COUNT, 0)
    ensures r.newTable.Keys == m.newTable.Keys
    ensures forall s | s in m.newTable :: 0 <= r.newTable[s] < |list| && list[r.newTable[s]] == m.newTable[s]
  {
    forall s | s in m.newTable
      ensures s in r.newTable && 0 <= r.newTable[s] < |list| && list[r.newTable[s]] == m.newTable[s]
    {
      Occupant(cfg, m, s);
      assert Before(s, NEW_BUCKET_COUNT, 0);
      assert SlotImage(m, list, base, r.newTable, s);
    }
    forall s | s in r.newTable
      ensures s in m.newTable
    {
      assert SlotImage(m, list, base, r.newTable, s);
    }
  }

  lemma {:induction false} LoadedIsRenumbered(cfg: Config, m: Manager, list: seq<int>, base: nat, r: Manager)
    requires Numbering(cfg, m, list, base) && BucketsLoaded(cfg, m, list, base, r, NEW_BUCKET_COUNT, 0)
    ensures Renumbered(m, r, list) && Inv(cfg, r)
  {
    forall k | 0 <= k < |list|
      ensures k in r.info
      ensures var i := m.info[list[k]];
              r.info[k] == Info(i.addr, i.source, 0, 0, i.lastSuccess, i.attempts, i.refs, i.tried, r.info[k].pos)
      ensures SettledAt(r.info, k) && TimesAt(r.info, k)
    {
      assert k in r.info && ImageAt(m, list, base, r.info, k);
      RefsRestored(cfg, m, list, base, r, k);
      assert SettledAt(m.info, list[k]) && TimesAt(m.info, list[k]);
    }
    forall id | id in r.info
      ensures SettledAt(r.info, id) && TimesAt(r.info, id)
    {
      assert 0 <= id < |list|;
    }
    NewRestored(cfg, m, list, base, r);
    TriedRestored(cfg, m, list, base, r);
  }

  // ----- what Serialize writes is a numbering

  predicate Increasing(s: seq<int>) {
    forall j, k | 0 <= j < k < |s| :: s[j] < s[k]
  }

  predicate AllBelow(s: seq<int>, x: int) {
    forall k | 0 <= k < |s| :: s[k] < x
  }

  predicate AllChosen(m: Manager, s: seq<int>, referenced: bool) {
    forall k | 0 <= k < |s| :: s[k] in m.info && IsChosen(m.info[s[k]], referenced)
  }

  lemma {:induction false} IncreasingNext(s: seq<int>, x: int)
    requires Increasing(s) && AllBelow(s, x)
    ensures Increasing(s + [x]) && forall y | x < y :: AllBelow(s + [x], y)
  {
  }

  lemma {:induction false} ChosenIncreasing(m: Manager, ids: seq<int>, n: nat, referenced: bool)
    requires Listing(m, ids) && n <= |ids|
    ensures Increasing(Chosen(m, ids, n, referenced)) && AllChosen(m, Chosen(m, ids, n, referenced), referenced)
    ensures n < |ids| ==> AllBelow(Chosen(m, ids, n, referenced), ids[n])
  {
    if n > 0 {
      ChosenIncreasing(m, ids, n - 1, referenced);
      var rest := Chosen(m, ids, n - 1, referenced);
      IncreasingNext(rest, ids[n - 1]);
      if IsChosen(m.info[ids[n - 1]], referenced) {
        AllChosenNext(m, rest, ids[n - 1], referenced);
      }
      if n < |ids| {
        assert ids[n - 1] < ids[n];
      }
    }
  }

  lemma {:induction false} AllChosenNext(m: Manager, s: seq<int>, x: int, referenced: bool)
    requires AllChosen(m, s, referenced) && x in m.info && IsChosen(m.info[x], referenced)
    ensures AllChosen(m, s + [x], referenced)
  {
  }

  lemma {:induction false} ChosenComplete(m: Manager, ids: seq<int>, n: nat, referenced: bool, i: nat)
    requires Listing(m, ids) && i < n <= |ids| && IsChosen(m.info[ids[i]], referenced)
    ensures ids[i] in Chosen(m, ids, n, referenced)
  {
    var r := Chosen(m, ids, n, referenced);
    if i == n - 1 {
      assert r[|r| - 1] == ids[i];
    } else {
      ChosenComplete(m, ids, n - 1, referenced, i);
    }
  }

  lemma {:induction false} DistinctSize(s: seq<int>, elements: set<int>)
    requires Increasing(s)
    requires forall x | x in elements :: x in s
    requires forall k | 0 <= k < |s| :: s[k] in elements
    ensures |s| == |elements|
  {
    if |s| > 0 {
      var last := s[|s| - 1];
      forall x | x in elements - {last}
        ensures x in s[..|s| - 1]
      {
        var k :| 0 <= k < |s| && s[k] == x;
        assert s[..|s| - 1][k] == x;
      }
      DistinctSize(s[..|s| - 1], elements - {last});
    } else {
      forall x
        ensures x !in elements
      {
        assert x in elements ==> x in s;
      }
      assert elements == {};
    }
  }

  lemma {:induction false} ChosenSize(cfg: Config, m: Manager, ids: seq<int>, referenced: bool)
    requires Inv(cfg, m) && Listing(m, ids)
    ensures |Chosen(m, ids, |ids|, referenced)| == if referenced then m.nNew else m.nTried
    ensures forall id | id in m.info && m.info[id].tried != referenced :: id in Chosen(m, ids, |ids|, referenced)
    ensures forall k | 0 <= k < |Chosen(m, ids, |ids|, referenced)| ::
              m.info[Chosen(m, ids, |ids|, referenced)[k]].tried != referenced
  {
    ChosenIncreasing(m, ids, |ids|, referenced);
    var r := Chosen(m, ids, |ids|, referenced);
    var all := if referenced then NewIds(m.info) else TriedIds(m.info);
    forall id | id in all
      ensures id in r
    {
      assert SettledAt(m.info, id) && id in ids;
      var i :| 0 <= i < |ids| && ids[i] == id;
      ChosenComplete(m, ids, |ids|, referenced, i);
    }
    forall k | 0 <= k < |r|
      ensures r[k] in all
    {
      assert RefsAt(cfg, m.info, m.newTable, r[k]);
    }
    DistinctSize(r, all);
  }

  /** Two lists, of the entries that are not tried and of those that are. */
  lemma {:induction false} TwoLists(cfg: Config, m: Manager, news: seq<int>, tried: seq<int>)
    requires Inv(cfg, m) && |news| == m.nNew && |tried| == m.nTried && Increasing(news) && Increasing(tried)
    requires forall k | 0 <= k < |news| :: news[k] in m.info && !m.info[news[k]].tried
    requires forall k | 0 <= k < |tried| :: tried[k] in m.info && m.info[tried[k]].tried
    requires forall id | id in m.info :: id in news || id in tried
    ensures Numbering(cfg, m, news + tried, |news|)
  {
    var list := news + tried;
    forall k | 0 <= k < |list|
      ensures list[k] in m.info && (m.info[list[k]].tried <==> k >= |news|)
    {
      assert list[k] == if k < |news| then news[k] else tried[k - |news|];
    }
    forall j, k | 0 <= j < k < |list|
      ensures list[j] != list[k]
    {
      assert j >= |news| ==> list[j] == tried[j - |news|] && list[k] == tried[k - |news|];
    }
    forall id | id in m.info
      ensures id in list
    {
      assert id in news || id in tried;
    }
  }

  lemma {:induction false} SerializedNumbering(cfg: Config, m: Manager, ids: seq<int>)
    requires Inv(cfg, m) && Listing(m, ids)
    ensures var news := Chosen(m, ids, |ids|, true);
            Numbering(cfg, m, news + Chosen(m, ids, |ids|, false), |news|)
  {
    ChosenIncreasing(m, ids, |ids|, true);
    ChosenIncreasing(m, ids, |ids|, false);
    ChosenSize(cfg, m, ids, true);
    ChosenSize(cfg, m, ids, false);
    TwoLists(cfg, m, Chosen(m, ids, |ids|, true), Chosen(m, ids, |ids|, false));
  }

  lemma {:induction false} TriedBounded(cfg: Config, m: Manager)
    requires Inv(cfg, m)
    ensures m.nTried <= TRIED_BUCKET_COUNT * BUCKET_SIZE
  {
    var place := map id | id in TriedIds(m.info) :: TriedSlot(cfg, m.info[id].addr.service);
    forall id | id in place
      ensures place[id] in m.triedTable && m.triedTable[place[id]] == id
    {
      assert TriedAt(cfg, m.info, m.triedTable, id);
    }
    SlotsSuffice(place, m.triedTable, TRIED_BUCKET_COUNT);
    assert place.Keys == TriedIds(m.info);
  }

  /** Some slot that holds the entry. */
  ghost function SomeSlot(cfg: Config, m: Manager, id: int): (s: Slot)
    requires Inv(cfg, m) && id in m.info && !m.info[id].tried
    ensures s in m.newTable && m.newTable[s] == id && s.bucket < NEW_BUCKET_COUNT && s.pos < BUCKET_SIZE
  {
    assert SettledAt(m.info, id) && RefsAt(cfg, m.info, m.newTable, id);
    var b :| b in Buckets(cfg, m.info[id].addr.service, m.newTable, id);
    NewSlot(cfg, m.info[id].addr.service, b)
  }

  lemma {:induction false} NewBounded(cfg: Config, m: Manager)
    requires Inv(cfg, m)
    ensures m.nNew <= NEW_BUCKET_COUNT * BUCKET_SIZE
  {
    var place := map id | id in NewIds(m.info) :: SomeSlot(cfg, m, id);
    SlotsSuffice(place, m.newTable, NEW_BUCKET_COUNT);
    assert place.Keys == NewIds(m.info);
  }

  /** Entries with places of their own are not more than there are places. */
  lemma {:induction false} SlotsSuffice(place: map<int, Slot>, table: Table, buckets: nat)
    requires forall id | id in place :: place[id].bucket < buckets && place[id].pos < BUCKET_SIZE
    requires forall id | id in place :: place[id] in table && table[place[id]] == id
    ensures |place.Keys| <= buckets * BUCKET_SIZE
  {
    var numbers := map id | id in place :: place[id].bucket * BUCKET_SIZE + place[id].pos;
    forall i, j | i in place && j in place && numbers[i] == numbers[j]
      ensures i == j
    {
      assert place[i] == Slot(place[i].bucket, place[i].pos) && place[j] == Slot(place[j].bucket, place[j].pos);
    }
    Pigeonhole(numbers, buckets * BUCKET_SIZE);
    assert numbers.Keys == place.Keys;
  }

  lemma {:induction false} Pigeonhole<T>(f: map<T, int>, n: nat)
    requires forall i | i in f :: 0 <= f[i] < n
    requires forall i, j | i in f && j in f && f[i] == f[j] :: i == j
    ensures |f.Keys| <= n
  {
    if f.Keys != {} {
      var j :| j in f.Keys;
      assert 0 <= f[j] < n;
      if i :| i in f && f[i] == n - 1 {
        var g := f - {i};
        assert g.Keys == f.Keys - {i};
        Pigeonhole(g, n - 1);
      } else {
        Pigeonhole(f, n - 1);
      }
    }
  }

  /** The stream of a numbered manager. */
  ghost predicate StreamOf(cfg: Config, m: Manager, list: seq<int>, base: nat, s: Stream)
    requires Numbering(cfg, m, list, base)
  {
    && s.version == 1 && s.keySize == 32 && s.key == cfg.key && s.nNew == m.nNew && s.nTried == m.nTried
    && s.nUBuckets == FlipFlag(NEW_BUCKET_COUNT)
    && |s.news| == base && |s.tried| == |list| - base && |s.buckets| == NEW_BUCKET_COUNT
    && RecordsOf(m, list, 0, s.news) && RecordsOf(m, list, base, s.tried)
    && (forall b | 0 <= b < NEW_BUCKET_COUNT :: s.buckets[b] == BucketList(m, list[..base], b, BUCKET_SIZE))
  }

  lemma {:induction false} SerializedStream(cfg: Config, m: Manager, ids: seq<int>)
    requires Inv(cfg, m) && Listing(m, ids)
    ensures var news := Chosen(m, ids, |ids|, true);
            var list := news + Chosen(m, ids, |ids|, false);
            && Numbering(cfg, m, list, |news|) && Serialize(cfg, m, ids).Some?
            && StreamOf(cfg, m, list, |news|, Serialize(cfg, m, ids).value)
  {
    SerializedNumbering(cfg, m, ids);
    var news, tried := Chosen(m, ids, |ids|, true), Chosen(m, ids, |ids|, false);
    SplitList(news, tried);
    ChosenSize(cfg, m, ids, true);
    ChosenSize(cfg, m, ids, false);
    WriteEntriesIs(m, ids, |ids|, true, m.nNew);
    WriteEntriesIs(m, ids, |ids|, false, m.nTried);
    WrittenStream(cfg, m, ids, news, tried, news + tried, Serialize(cfg, m, ids).value);
  }

  /** An entry is chosen at the place after those chosen before it. */
  lemma {:induction false} ChosenAt(m: Manager, ids: seq<int>, i: nat, n: nat, referenced: bool)
    requires Listing(m, ids) && i < n <= |ids| && IsChosen(m.info[ids[i]], referenced)
    ensures var k := |Chosen(m, ids, i, referenced)|;
            k < |Chosen(m, ids, n, referenced)| && Chosen(m, ids, n, referenced)[k] == ids[i]
  {
    if i < n - 1 {
      ChosenAt(m, ids, i, n - 1, referenced);
    }
  }

  /** A referenced entry is written under its place in the list. */
  lemma {:induction false} UnkIdIs(m: Manager, ids: seq<int>, id: int)
    requires Listing(m, ids) && id in m.info && m.info[id].refs != 0
    ensures UnkId(m, ids, id) == IndexOf(Chosen(m, ids, |ids|, true), id)
  {
    var i := IndexOf(ids, id);
    ChosenAt(m, ids, i, |ids|, true);
    ChosenIncreasing(m, ids, |ids|, true);
    IndexIs(Chosen(m, ids, |ids|, true), id, |Chosen(m, ids, i, true)|);
  }

  lemma {:induction false} IndexIs(s: seq<int>, x: int, k: nat)
    requires Increasing(s) && k < |s| && s[k] == x
    ensures IndexOf(s, x) == k
  {
  }

  lemma {:induction false} BucketIdsAre(cfg: Config, m: Manager, ids: seq<int>, b: nat, n: nat)
    requires Inv(cfg, m) && Listing(m, ids)
    ensures BucketIds(m, ids, b, n) == BucketList(m, Chosen(m, ids, |ids|, true), b, n)
  {
    if n > 0 {
      BucketIdsAre(cfg, m, ids, b, n - 1);
      if Slot(b, n - 1) in m.newTable {
        Occupant(cfg, m, Slot(b, n - 1));
        UnkIdIs(m, ids, m.newTable[Slot(b, n - 1)]);
      }
    }
  }

  lemma {:induction false} SplitList(news: seq<int>, tried: seq<int>)
    ensures (news + tried)[..|news|] == news && (news + tried)[|news|..] == tried
  {
  }

  lemma {:induction false} WrittenStream(
    cfg: Config, m: Manager, ids: seq<int>, news: seq<int>, tried: seq<int>, list: seq<int>, s: Stream)
    requires Listing(m, ids) && news == Chosen(m, ids, |ids|, true) && tried == Chosen(m, ids, |ids|, false)
    requires |list| == |news| + |tried| && list[..|news|] == news && list[|news|..] == tried
    requires Numbering(cfg, m, list, |news|) && Serialize(cfg, m, ids) == Some(s)
    ensures StreamOf(cfg, m, list, |news|, s)
  {
    var base := |news|;
    WriteEntriesIs(m, ids, |ids|, true, m.nNew);
    WriteEntriesIs(m, ids, |ids|, false, m.nTried);
    forall b | 0 <= b < NEW_BUCKET_COUNT
      ensures s.buckets[b] == BucketList(m, news, b, BUCKET_SIZE)
    {
      BucketIdsAre(cfg, m, ids, b, BUCKET_SIZE);
    }
    forall k | 0 <= k < base
      ensures s.news[k] == ToRecord(m.info[list[0 + k]])
    {
      assert list[k] == list[..base][k];
    }
    forall k | 0 <= k < |s.tried|
      ensures s.tried[k] == ToRecord(m.info[list[base + k]])
    {
      assert list[base + k] == list[base..][k];
    }
  }

  /** All of the new table's records read, and none of the tried table's. */
  lemma {:induction false} TriedStart(cfg: Config, m: Manager, list: seq<int>, base: nat, n: Manager, p: Manager)
    requires Numbering(cfg, m, list, base) && NewLoaded(cfg, m, list, base, n, base) && p == n.(nextId := m.nNew)
    ensures TriedLoaded(cfg, m, list, base, p, 0)
  {
    assert p.(nTried := 0) == n.(nextId := base, nTried := 0);
  }

  /** All of both read. */
  lemma {:induction false} BucketsStart(cfg: Config, m: Manager, list: seq<int>, base: nat, t: Manager)
    requires Numbering(cfg, m, list, base) && TriedLoaded(cfg, m, list, base, t, |list| - base)
    ensures BucketsLoaded(cfg, m, list, base, t, 0, 0)
  {
    assert t.(nTried := m.nTried) == t;
  }

  /** Both record lists read. */
  lemma {:induction false} ReadRecords(
    cfg: Config, m: Manager, list: seq<int>, base: nat, s: Stream)
    returns (t: Manager)
    requires Numbering(cfg, m, list, base) && StreamOf(cfg, m, list, base, s)
    ensures var n := LoadNew(cfg, EMPTY.(nNew := s.nNew, nTried := s.nTried), s.news, |s.news|, true);
            t == LoadTried(cfg, n.(nextId := s.nNew), s.tried, |s.tried|)
    ensures BucketsLoaded(cfg, m, list, base, t, 0, 0)
  {
    var start := EMPTY.(nNew := s.nNew, nTried := s.nTried);
    var n := LoadNew(cfg, start, s.news, |s.news|, true);
    LoadNewStart(cfg, m, list, base, start);
    LoadNewAll(cfg, m, list, base, start, s.news, 0, start);
    var p := n.(nextId := s.nNew);
    TriedStart(cfg, m, list, base, n, p);
    t := LoadTried(cfg, p, s.tried, |s.tried|);
    LoadTriedAll(cfg, m, list, base, p, s.tried, 0, p);
    BucketsStart(cfg, m, list, base, t);
  }

  lemma {:induction false} ReadBuckets(
    cfg: Config, m: Manager, list: seq<int>, base: nat, s: Stream, t: Manager)
    returns (r: Manager)
    requires Numbering(cfg, m, list, base) && StreamOf(cfg, m, list, base, s)
    requires BucketsLoaded(cfg, m, list, base, t, 0, 0)
    ensures r == LoadBuckets(cfg, t, s.buckets, |s.buckets|, true)
    ensures Renumbered(m, r, list) && Inv(cfg, r) && r.nextId == |list| && Prune(r, r.nextId) == Some(r)
  {
    r := LoadBuckets(cfg, t, s.buckets, NEW_BUCKET_COUNT, true);
    LoadBucketsAll(cfg, m, list, base, t, s.buckets, NEW_BUCKET_COUNT, r);
    LoadedIsRenumbered(cfg, m, list, base, r);
    PruneNothing(r, r.nextId);
  }

  /** Writing a consistent manager and reading it into a new one loses nothing:
      the stream is not refused, no entry collides or is pruned, and the result
      is the same manager with its entries renumbered. */
  lemma {:induction false} RoundTrip(cfg: Config, m: Manager, ids: seq<int>)
    requires Inv(cfg, m) && Listing(m, ids)
    ensures Serialize(cfg, m, ids).Some?
    ensures var r := Unserialize(cfg, Serialize(cfg, m, ids).value);
            && r.Some? && Inv(cfg, r.value)
            && Renumbered(m, r.value, Chosen(m, ids, |ids|, true) + Chosen(m, ids, |ids|, false))
  {
    SerializedStream(cfg, m, ids);
    var s := Serialize(cfg, m, ids).value;
    var news := Chosen(m, ids, |ids|, true);
    var list := news + Chosen(m, ids, |ids|, false);
    NewBounded(cfg, m);
    TriedBounded(cfg, m);
    ReadStream(cfg, m, list, |news|, s);
  }

  lemma {:induction false} ReadStream(cfg: Config, m: Manager, list: seq<int>, base: nat, s: Stream)
    requires Numbering(cfg, m, list, base) && StreamOf(cfg, m, list, base, s)
    requires s.nNew <= NEW_BUCKET_COUNT * BUCKET_SIZE && s.nTried <= TRIED_BUCKET_COUNT * BUCKET_SIZE
    ensures var r := Unserialize(cfg, s); r.Some? && Inv(cfg, r.value) && Renumbered(m, r.value, list)
  {
    var t := ReadRecords(cfg, m, list, base, s);
    var r := ReadBuckets(cfg, m, list, base, s, t);
    UnserializeIs(cfg, s, t, r);
  }

  lemma {:induction false} UnserializeIs(cfg: Config, s: Stream, t: Manager, r: Manager)
    requires s.version == 1 && s.keySize == 32 && s.key == cfg.key && s.nUBuckets == FlipFlag(NEW_BUCKET_COUNT)
    requires 0 <= s.nNew <= NEW_BUCKET_COUNT * BUCKET_SIZE && 0 <= s.nTried <= TRIED_BUCKET_COUNT * BUCKET_SIZE
    requires |s.news| == s.nNew && |s.tried| == s.nTried && |s.buckets| == NEW_BUCKET_COUNT
    requires var n := LoadNew(cfg, EMPTY.(nNew := s.nNew, nTried := s.nTried), s.news, |s.news|, true);
             t == LoadTried(cfg, n.(nextId := s.nNew), s.tried, |s.tried|)
    requires r == LoadBuckets(cfg, t, s.buckets, |s.buckets|, true) && r.nextId >= 0
    requires Prune(r, r.nextId) == Some(r)
    ensures Unserialize(cfg, s) == Some(r)
  {
    assert cfg.(key := s.key) == cfg;
    assert FlipFlag(s.nUBuckets) == NEW_BUCKET_COUNT;
  }

  /** Every manager can be written: its entries can be listed in order. */
  lemma {:induction false} ListingExists(m: Manager) returns (ids: seq<int>)
    ensures Listing(m, ids)
  {
    ids := InOrder(m.info.Keys);
  }

  lemma {:induction false} InOrder(s: set<int>) returns (ids: seq<int>)
    ensures Increasing(ids) && (forall i | 0 <= i < |ids| :: ids[i] in s) && forall x | x in s :: x in ids
    decreases |s|
  {
    if s == {} {
      ids := [];
    } else {
      var x := Greatest(s);
      var rest := InOrder(s - {x});
      ids := rest + [x];
    }
  }

  lemma {:induction false} Greatest(s: set<int>) returns (x: int)
    requires s != {}
    ensures x in s && forall y | y in s :: y <= x
    decreases |s|
  {
    var a := SomeElement(s);
    if s - {a} == {} {
      assert s == {a};
      x := a;
    } else {
      var b := Greatest(s - {a});
      x := if a < b then b else a;
      forall y | y in s
        ensures y <= x
      {
        assert y == a || y in s - {a};
      }
    }
  }

  // ----- a cleared manager

  /** What Clear leaves: the two maps of entries, and nothing else. */
  function Cleared(info: Infos, ids: map<NetAddr, int>): Manager {
    EMPTY.(info := info, ids := ids)
  }

  /** A cleared manager is consistent if and only if it had no entries. */
  lemma {:induction false} ClearedIff(cfg: Config, info: Infos, ids: map<NetAddr, int>)
    ensures Inv(cfg, Cleared(info, ids)) <==> info == map[] && ids == map[]
  {
    var m := Cleared(info, ids);
    if Inv(cfg, m) {
      NoOrderNoEntries(info, ids, m.nextId);
    }
    if info == map[] && ids == map[] {
      assert m == EMPTY;
      EmptyConsistent(cfg);
    }
  }

  lemma {:induction false} NoOrderNoEntries(info: Infos, ids: map<NetAddr, int>, nextId: int)
    requires Ordered(info, []) && Indexed(info, ids, nextId)
    ensures info == map[] && ids == map[]
  {
    forall id
      ensures id !in info
    {
      assert id in info ==> PosAt(info, [], id);
    }
    assert info.Keys == {};
    forall a
      ensures a !in ids
    {
      assert a in ids ==> AddrAt(info, ids, a);
    }
    assert ids.Keys == {};
  }

  /** Writing a cleared manager fires an assertion if and only if some entry is
      left that is referenced or tried. */
  lemma {:induction false} ClearedFires(cfg: Config, info: Infos, addrs: map<NetAddr, int>, ids: seq<int>)
    requires Listing(Cleared(info, addrs), ids)
    ensures Serialize(cfg, Cleared(info, addrs), ids).None? <==>
            exists id | id in info :: info[id].refs != 0 || info[id].tried
  {
    var m := Cleared(info, addrs);
    WriteEntriesIs(m, ids, |ids|, true, 0);
    WriteEntriesIs(m, ids, |ids|, false, 0);
    ChosenIncreasing(m, ids, |ids|, true);
    ChosenIncreasing(m, ids, |ids|, false);
    var news, tried := Chosen(m, ids, |ids|, true), Chosen(m, ids, |ids|, false);
    if id :| id in info && (info[id].refs != 0 || info[id].tried) {
      var i :| 0 <= i < |ids| && ids[i] == id;
      ChosenComplete(m, ids, |ids|, info[id].refs != 0, i);
    }
    if |news| > 0 {
      var id := FirstChosen(m, news, true);
    }
    if |tried| > 0 {
      var id := FirstChosen(m, tried, false);
    }
  }

  lemma {:induction false} FirstChosen(m: Manager, s: seq<int>, referenced: bool) returns (id: int)
    requires AllChosen(m, s, referenced) && |s| > 0
    ensures id in m.info && (m.info[id].refs != 0 || m.info[id].tried)
  {
    id := s[0];
    assert IsChosen(m.info[id], referenced);
  }

  /** A new manager is given one address and cleared; writing it then fires an
      assertion. */
  lemma {:induction false} ClearedExample(
    cfg: Config, addr: Address, source: NetAddr, penalty: int, now: int, random: nat)
    requires cfg.routable(addr.service.addr)
    ensures var r := Add(cfg, EMPTY, addr, source, penalty, now, random);
            r.Some? &&
            var m := Cleared(r.value.0.info, r.value.0.ids);
            Listing(m, [0]) && Serialize(cfg, m, [0]) == None && !Inv(cfg, m)
  {
    var r := FirstAdd(cfg, addr, source, penalty, now, random);
    assert r.info[0].refs != 0 && Listing(Cleared(r.info, r.ids), [0]);
    ClearedFires(cfg, r.info, r.ids, [0]);
    ClearedIff(cfg, r.info, r.ids);
  }
}
