/**
  Reading any stream as a peers file (src/addrman.h:347-450), not only one that was
  written from a manager: what comes of numbers that do not fit, of records that
  collide and of bucket lists that cannot be used.
 */
module AddrManFile {
  import opened Common
  import opened AddrMan
  import opened AddrManInv
  import opened AddrManDisk

  // ----- the header

  /** The bucket count is written with bit 30 set, which takes itself back. */
  lemma {:induction false} FlagTwice(n: int)
    requires 0 <= n < 0x8000_0000
    ensures 0 <= FlipFlag(n) < 0x8000_0000 && FlipFlag(FlipFlag(n)) == n && FlipFlag(n) != n
    ensures n < 0x4000_0000 ==> FlipFlag(n) == n + 0x4000_0000
  {
    if n < 0x4000_0000 {
      assert n / 0x4000_0000 == 0 && (n + 0x4000_0000) / 0x4000_0000 == 1;
    } else {
      assert n / 0x4000_0000 == 1 && (n - 0x4000_0000) / 0x4000_0000 == 0;
    }
  }

  /** What every written stream begins with. */
  lemma {:induction false} HeaderWritten(cfg: Config, m: Manager, ids: seq<int>, s: Stream)
    requires Listing(m, ids) && Serialize(cfg, m, ids) == Some(s)
    ensures s.version == 1 && s.keySize == 32 && s.key == cfg.key && s.nNew == m.nNew && s.nTried == m.nTried
    ensures s.nUBuckets == 0x4000_0400 && |s.buckets| == 1024
  {
    FlagTwice(1024);
  }

  /** The number of buckets that the stream announces. */
  function BucketsAnnounced(s: Stream): int {
    if s.version == 0 then s.nUBuckets else FlipFlag(s.nUBuckets)
  }

  /** The lists of buckets are of this version and for as many buckets. */
  predicate Usable(s: Stream) {
    s.version == 1 && BucketsAnnounced(s) == 1024
  }

  /** What is asked of a stream: a key of 32 bytes, at most as many entries as there
      are slots, and all the data that is announced. */
  predicate Accepted(s: Stream) {
    && s.keySize == 32 && s.nNew <= 65536 && s.nTried <= 16384
    && |s.news| == Max(0, s.nNew) && |s.tried| == Max(0, s.nTried) && |s.buckets| == Max(0, BucketsAnnounced(s))
  }

  lemma {:induction false} OnlyAccepted(cfg: Config, s: Stream)
    ensures Unserialize(cfg, s).Some? ==> Accepted(s)
  {
  }

  // ----- records

  /** The entry is what the record says, as yet never tried. */
  predicate IsRecord(i: Info, rec: Record, tried: bool) {
    i == Info(rec.addr, rec.source, 0, 0, rec.lastSuccess, rec.attempts, i.refs, tried, i.pos)
  }

  predicate DistinctAddresses(recs: seq<Record>) {
    forall i, j | 0 <= i < j < |recs| :: recs[i].addr.service.addr != recs[j].addr.service.addr
  }

  predicate NoAddressTwice(news: seq<Record>, tried: seq<Record>) {
    DistinctAddresses(news + tried)
  }

  function RecordHome(cfg: Config, rec: Record): Slot {
    NewSlot(cfg, rec.addr.service, NewBucket(cfg, rec.addr.service, rec.source))
  }

  /** No record before has the same home slot. */
  predicate FirstHome(cfg: Config, recs: seq<Record>, k: int)
    requires 0 <= k < |recs|
  {
    forall j | 0 <= j < k :: RecordHome(cfg, recs[j]) != RecordHome(cfg, recs[k])
  }

  // ----- the new records

  predicate NewsAt(info: Infos, recs: seq<Record>, k: int)
    requires k in info
  {
    0 <= k < |recs| && IsRecord(info[k], recs[k], false)
  }

  /** The slots are the homes of the first `n` records, each held by the first. */
  ghost predicate Homes(cfg: Config, recs: seq<Record>, n: nat, table: Table)
    requires n <= |recs|
  {
    && (forall s {:trigger s in table} | s in table ::
          0 <= table[s] < n && RecordHome(cfg, recs[table[s]]) == s && FirstHome(cfg, recs, table[s]))
    && (forall k {:trigger recs[k]} | 0 <= k < n :: RecordHome(cfg, recs[k]) in table)
  }

  ghost predicate NewsShape(cfg: Config, r: Manager, n: nat) {
    var q := r.(nextId := n, nNew := n, nTried := 0);
    Shape(cfg, q) && Counted(q, 0)
  }

  /** After the first `n` of the new records. */
  ghost predicate NewsRead(cfg: Config, recs: seq<Record>, n: nat, usable: bool, r: Manager) {
    && n <= |recs| && NewsShape(cfg, r, n) && r.triedTable == map[]
    && (forall k {:trigger k in r.info} :: k in r.info <==> 0 <= k < n)
    && (forall k {:trigger NewsAt(r.info, recs, k)} | k in r.info :: NewsAt(r.info, recs, k))
    && (if usable then r.newTable == map[] else Homes(cfg, recs, n, r.newTable))
  }

  lemma {:induction false} EnterNews(cfg: Config, recs: seq<Record>, n: nat, usable: bool, p: Manager, e: Manager)
    requires NewsRead(cfg, recs, n, usable, p) && n < |recs| && DistinctAddresses(recs) && e == Enter(p, n, recs[n])
    ensures NewsShape(cfg, e, n + 1)
    ensures forall k | k in e.info :: NewsAt(e.info, recs, k)
  {
    var q, rec := p.(nextId := n, nNew := n, nTried := 0), recs[n];
    var a := rec.addr.service.addr;
    forall k | k in p.info
      ensures p.info[k].addr.service.addr != a
    {
      assert NewsAt(p.info, recs, k);
    }
    assert a in q.ids ==> AddrAt(q.info, q.ids, a);
    EnterKeeps(cfg, q, rec, 0);
    var f := Enter(q, n, rec).(nextId := n + 1);
    assert e.(nextId := n + 1, nNew := n + 1, nTried := 0) == f.(nNew := n + 1);
    assert Counted(f, -1);
    forall k | k in e.info
      ensures NewsAt(e.info, recs, k)
    {
      assert k != n ==> NewsAt(p.info, recs, k);
    }
  }

  lemma {:induction false} HomesNext(cfg: Config, recs: seq<Record>, n: nat, table: Table)
    requires n < |recs| && Homes(cfg, recs, n, table)
    ensures var home := RecordHome(cfg, recs[n]);
            Homes(cfg, recs, n + 1, if home in table then table else table[home := n])
  {
    var home := RecordHome(cfg, recs[n]);
    if home !in table {
      assert FirstHome(cfg, recs, n) by {
        forall j | 0 <= j < n
          ensures RecordHome(cfg, recs[j]) != home
        {
          assert RecordHome(cfg, recs[j]) in table;
        }
      }
    }
  }

  lemma {:induction false} LinkNews(cfg: Config, recs: seq<Record>, n: nat, e: Manager, r: Manager)
    requires n < |recs| && NewsShape(cfg, e, n + 1) && n in e.info && e.info[n].refs == 0
    requires forall k | k in e.info :: NewsAt(e.info, recs, k)
    requires var home := RecordHome(cfg, recs[n]); home !in e.newTable && r == Link(e, n, home, 1)
    ensures NewsShape(cfg, r, n + 1) && forall k | k in r.info :: NewsAt(r.info, recs, k)
  {
    var q := e.(nextId := n + 1, nNew := n + 1, nTried := 0);
    var b := NewBucket(cfg, recs[n].addr.service, recs[n].source);
    assert NewsAt(e.info, recs, n);
    LinkKeeps(cfg, q, n, b, 0, q.info.Keys);
    assert Link(q, n, RecordHome(cfg, recs[n]), 1) == r.(nextId := n + 1, nNew := n + 1, nTried := 0);
    forall k | k in r.info
      ensures NewsAt(r.info, recs, k)
    {
      assert NewsAt(e.info, recs, k);
    }
  }

  lemma {:induction false} NewsStep(cfg: Config, recs: seq<Record>, n: nat, usable: bool, p: Manager, r: Manager)
    requires NewsRead(cfg, recs, n, usable, p) && n < |recs| && DistinctAddresses(recs)
    requires var e := Enter(p, n, recs[n]);
             var home := HomeSlot(cfg, e.info[n]);
             r == if usable || home in e.newTable then e else Link(e, n, home, e.info[n].refs + 1)
    ensures NewsRead(cfg, recs, n + 1, usable, r)
  {
    var e := Enter(p, n, recs[n]);
    EnterNews(cfg, recs, n, usable, p, e);
    assert HomeSlot(cfg, e.info[n]) == RecordHome(cfg, recs[n]);
    if !usable {
      HomesNext(cfg, recs, n, p.newTable);
      if RecordHome(cfg, recs[n]) !in e.newTable {
        LinkNews(cfg, recs, n, e, r);
      }
    }
  }

  lemma {:induction false} LoadNewRead(cfg: Config, start: Manager, recs: seq<Record>, n: nat, usable: bool, r: Manager)
    requires n <= |recs| && DistinctAddresses(recs) && start == EMPTY.(nNew := start.nNew, nTried := start.nTried)
    requires r == LoadNew(cfg, start, recs, n, usable)
    ensures NewsRead(cfg, recs, n, usable, r) && r.nNew == start.nNew && r.nTried == start.nTried
    decreases n
  {
    if n == 0 {
      EmptyConsistent(cfg);
    } else {
      var p := LoadNew(cfg, start, recs, n - 1, usable);
      LoadNewRead(cfg, start, recs, n - 1, usable, p);
      NewsStep(cfg, recs, n - 1, usable, p, r);
    }
  }

  // ----- the tried records

  /** No record before has the same tried slot. */
  predicate FirstTried(cfg: Config, recs: seq<Record>, j: int)
    requires 0 <= j < |recs|
  {
    forall i | 0 <= i < j :: TriedSlot(cfg, recs[i].addr.service) != TriedSlot(cfg, recs[j].addr.service)
  }

  predicate OneOf(i: Info, recs: seq<Record>, n: nat)
    requires n <= |recs|
  {
    exists j | 0 <= j < n :: IsRecord(i, recs[j], true)
  }

  predicate EntryAt(info: Infos, news: seq<Record>, tried: seq<Record>, n: nat, k: int)
    requires k in info && n <= |tried|
  {
    if k < |news| then NewsAt(info, news, k) else OneOf(info[k], tried, n)
  }

  /** The slot of record `j` is taken, by the record itself if it is the first. */
  predicate HasSlot(cfg: Config, info: Infos, table: Table, tried: seq<Record>, j: int)
    requires 0 <= j < |tried|
  {
    var s := TriedSlot(cfg, tried[j].addr.service);
    s in table && (FirstTried(cfg, tried, j) ==> table[s] in info && IsRecord(info[table[s]], tried[j], true))
  }

  ghost predicate TriedShape(cfg: Config, r: Manager, base: nat) {
    var q := r.(nTried := r.nextId - base);
    Shape(cfg, q) && Counted(q, 0)
  }

  ghost predicate TriedEntries(cfg: Config, news: seq<Record>, tried: seq<Record>, n: nat, r: Manager)
    requires n <= |tried|
  {
    && (forall k {:trigger k in r.info} :: k in r.info <==> 0 <= k < r.nextId)
    && (forall k {:trigger EntryAt(r.info, news, tried, n, k)} | k in r.info :: EntryAt(r.info, news, tried, n, k))
    && (forall j {:trigger HasSlot(cfg, r.info, r.triedTable, tried, j)} | 0 <= j < n ::
          HasSlot(cfg, r.info, r.triedTable, tried, j))
  }

  /** After the first `n` of the tried records, of which some were lost. */
  ghost predicate TriedRead(cfg: Config, news: seq<Record>, tried: seq<Record>, n: nat, r: Manager) {
    && n <= |tried| && |news| <= r.nextId && r.nNew == |news| && r.nTried == |tried| - n + (r.nextId - |news|)
    && TriedShape(cfg, r, |news|) && TriedEntries(cfg, news, tried, n, r)
  }

  lemma {:induction false} AddressUnknown(
    cfg: Config, news: seq<Record>, tried: seq<Record>, n: nat, p: Manager, a: NetAddr)
    requires TriedRead(cfg, news, tried, n, p) && n < |tried| && NoAddressTwice(news, tried)
    requires a == tried[n].addr.service.addr
    ensures a !in p.ids
  {
    var all := news + tried;
    assert all[|news| + n] == tried[n];
    forall k | k in p.info
      ensures p.info[k].addr.service.addr != a
    {
      assert EntryAt(p.info, news, tried, n, k);
      if k < |news| {
        assert all[k] == news[k];
      } else {
        var j :| 0 <= j < n && IsRecord(p.info[k], tried[j], true);
        assert all[|news| + j] == tried[j];
      }
    }
    assert a in p.ids ==> AddrAt(p.info, p.ids, a);
  }

  lemma {:induction false} EntriesStay(
    info: Infos, info': Infos, news: seq<Record>, tried: seq<Record>, n: nat, id: int)
    requires n < |tried| && id >= |news| && id !in info && info'.Keys == info.Keys + {id}
    requires forall k | k in info :: info'[k] == info[k]
    requires IsRecord(info'[id], tried[n], true)
    requires forall k | k in info :: EntryAt(info, news, tried, n, k)
    ensures forall k | k in info' :: EntryAt(info', news, tried, n + 1, k)
  {
    forall k | k in info'
      ensures EntryAt(info', news, tried, n + 1, k)
    {
      if k != id {
        assert EntryAt(info, news, tried, n, k);
      }
    }
  }

  lemma {:induction false} TriedTaken(
    cfg: Config, news: seq<Record>, tried: seq<Record>, n: nat, p: Manager, r: Manager)
    requires TriedRead(cfg, news, tried, n, p) && n < |tried|
    requires TriedSlot(cfg, tried[n].addr.service) in p.triedTable && r == p.(nTried := p.nTried - 1)
    ensures TriedRead(cfg, news, tried, n + 1, r)
  {
    forall k | k in r.info
      ensures EntryAt(r.info, news, tried, n + 1, k)
    {
      assert EntryAt(p.info, news, tried, n, k);
    }
    var slot := TriedSlot(cfg, tried[n].addr.service);
    assert !FirstTried(cfg, tried, n) by {
      var j := TriedHolder(cfg, news, tried, n, p, slot);
    }
    forall j | 0 <= j < n + 1
      ensures HasSlot(cfg, r.info, r.triedTable, tried, j)
    {
      assert j < n ==> HasSlot(cfg, p.info, p.triedTable, tried, j);
    }
  }

  /** A taken slot is that of a record before. */
  lemma {:induction false} TriedHolder(
    cfg: Config, news: seq<Record>, tried: seq<Record>, n: nat, p: Manager, slot: Slot) returns (j: nat)
    requires TriedRead(cfg, news, tried, n, p) && slot in p.triedTable
    ensures j < n && TriedSlot(cfg, tried[j].addr.service) == slot
  {
    assert TriedSlotAt(cfg, p.info, p.triedTable, slot);
    var k := p.triedTable[slot];
    assert EntryAt(p.info, news, tried, n, k);
    j :| 0 <= j < n && IsRecord(p.info[k], tried[j], true);
  }

  lemma {:induction false} TriedFree(
    cfg: Config, news: seq<Record>, tried: seq<Record>, n: nat, p: Manager, r: Manager)
    requires TriedRead(cfg, news, tried, n, p) && n < |tried| && NoAddressTwice(news, tried)
    requires TriedSlot(cfg, tried[n].addr.service) !in p.triedTable && r == EnterTried(cfg, p, tried[n])
    ensures TriedRead(cfg, news, tried, n + 1, r)
  {
    var id := p.nextId;
    TriedFreeShape(cfg, news, tried, n, p, r);
    EntriesStay(p.info, r.info, news, tried, n, id);
    SlotsTaken(cfg, p.info, p.triedTable, tried, n, r.info, r.triedTable, id);
  }

  lemma {:induction false} TriedFreeShape(
    cfg: Config, news: seq<Record>, tried: seq<Record>, n: nat, p: Manager, r: Manager)
    requires TriedRead(cfg, news, tried, n, p) && n < |tried| && NoAddressTwice(news, tried)
    requires TriedSlot(cfg, tried[n].addr.service) !in p.triedTable && r == EnterTried(cfg, p, tried[n])
    ensures TriedShape(cfg, r, |news|)
  {
    var q := p.(nTried := p.nextId - |news|);
    AddressUnknown(cfg, news, tried, n, p, tried[n].addr.service.addr);
    EnterTriedKeeps(cfg, q, tried[n]);
    assert EnterTried(cfg, q, tried[n]).(nTried := q.nTried + 1) == r.(nTried := r.nextId - |news|);
  }

  lemma {:induction false} SlotsTaken(
    cfg: Config, info: Infos, table: Table, tried: seq<Record>, n: nat, info': Infos, table': Table, id: int)
    requires n < |tried| && TriedSlot(cfg, tried[n].addr.service) !in table && id !in info
    requires table' == table[TriedSlot(cfg, tried[n].addr.service) := id]
    requires id in info' && info' == info[id := info'[id]] && IsRecord(info'[id], tried[n], true)
    requires forall j | 0 <= j < n :: HasSlot(cfg, info, table, tried, j)
    ensures forall j | 0 <= j < n + 1 :: HasSlot(cfg, info', table', tried, j)
  {
    forall j | 0 <= j < n + 1
      ensures HasSlot(cfg, info', table', tried, j)
    {
      if j < n {
        assert HasSlot(cfg, info, table, tried, j);
      }
    }
  }

  lemma {:induction false} LoadTriedNext(
    cfg: Config, start: Manager, tried: seq<Record>, n: nat, p: Manager, r: Manager)
    requires n < |tried| && p == LoadTried(cfg, start, tried, n) && r == LoadTried(cfg, start, tried, n + 1)
    ensures r == if TriedSlot(cfg, tried[n].addr.service) in p.triedTable then p.(nTried := p.nTried - 1)
                 else EnterTried(cfg, p, tried[n])
  {
  }

  /** `r` is what the loop has made of the first `n` records. */
  ghost predicate TriedSoFar(
    cfg: Config, news: seq<Record>, tried: seq<Record>, start: Manager, n: nat, r: Manager)
  {
    n <= |tried| && r == LoadTried(cfg, start, tried, n) && TriedRead(cfg, news, tried, n, r)
  }

  lemma {:induction false} LoadTriedRead(
    cfg: Config, news: seq<Record>, tried: seq<Record>, start: Manager, n: nat) returns (r: Manager)
    requires n <= |tried| && NoAddressTwice(news, tried) && TriedSoFar(cfg, news, tried, start, 0, start)
    ensures TriedSoFar(cfg, news, tried, start, n, r)
    decreases n
  {
    if n == 0 {
      r := start;
    } else {
      var p := LoadTriedRead(cfg, news, tried, start, n - 1);
      r := LoadTriedStep(cfg, news, tried, start, n - 1, n, p);
    }
  }

  lemma {:induction false} LoadTriedTable(cfg: Config, tried: seq<Record>, start: Manager, n: nat)
    requires n <= |tried|
    ensures LoadTried(cfg, start, tried, n).newTable == start.newTable
  {
    if n > 0 {
      LoadTriedTable(cfg, tried, start, n - 1);
    }
  }

  lemma {:induction false} LoadTriedStep(
    cfg: Config, news: seq<Record>, tried: seq<Record>, start: Manager, n: nat, next: nat, p: Manager)
    returns (r: Manager)
    requires n < |tried| && next == n + 1 && NoAddressTwice(news, tried) && TriedSoFar(cfg, news, tried, start, n, p)
    ensures TriedSoFar(cfg, news, tried, start, next, r)
  {
    r := LoadTried(cfg, start, tried, n + 1);
    LoadTriedNext(cfg, start, tried, n, p, r);
    TriedStep(cfg, news, tried, n, p, r);
  }

  lemma {:induction false} TriedStep(
    cfg: Config, news: seq<Record>, tried: seq<Record>, n: nat, p: Manager, r: Manager)
    requires TriedRead(cfg, news, tried, n, p) && n < |tried| && NoAddressTwice(news, tried)
    requires r == if TriedSlot(cfg, tried[n].addr.service) in p.triedTable then p.(nTried := p.nTried - 1)
                  else EnterTried(cfg, p, tried[n])
    ensures TriedRead(cfg, news, tried, n + 1, r)
  {
    if TriedSlot(cfg, tried[n].addr.service) in p.triedTable {
      TriedTaken(cfg, news, tried, n, p, r);
    } else {
      TriedFree(cfg, news, tried, n, p, r);
    }
  }

  lemma {:induction false} TriedStart(
    cfg: Config, news: seq<Record>, tried: seq<Record>, usable: bool, p: Manager, r: Manager)
    requires NewsRead(cfg, news, |news|, usable, p) && r == p.(nextId := |news|)
    requires p.nNew == |news| && p.nTried == |tried|
    ensures TriedRead(cfg, news, tried, 0, r)
  {
    assert r.(nTried := 0) == p.(nextId := |news|, nNew := |news|, nTried := 0);
    forall k | k in r.info
      ensures EntryAt(r.info, news, tried, 0, k)
    {
      assert NewsAt(p.info, news, k);
    }
  }

  // ----- the bucket lists

  /** `r` is `p` with more references. */
  ghost predicate Referred(cfg: Config, p: Manager, r: Manager) {
    && Shape(cfg, r) && Counted(r, 0) && r == p.(info := r.info, newTable := r.newTable)
    && r.info.Keys == p.info.Keys
    && (forall k {:trigger r.info[k]} | k in p.info ::
          r.info[k] == p.info[k].(refs := r.info[k].refs) && p.info[k].refs <= r.info[k].refs)
    && (forall s {:trigger s in r.newTable} | s in p.newTable :: s in r.newTable && r.newTable[s] == p.newTable[s])
  }

  /** Entries below `nNew` are new ones. */
  ghost predicate NewBelow(m: Manager) {
    forall k {:trigger m.info[k]} | k in m.info && k < m.nNew :: !m.info[k].tried
  }

  /** The slot of entry `k` in bucket `b` is taken, or it has its eight references. */
  predicate Heeded(cfg: Config, m: Manager, b: nat, k: int) {
    0 <= k < m.nNew && k in m.info ==>
      NewSlot(cfg, m.info[k].addr.service, b) in m.newTable || m.info[k].refs == 8
  }

  lemma {:induction false} ReferredTrans(cfg: Config, p: Manager, q: Manager, r: Manager)
    requires Referred(cfg, p, q) && Referred(cfg, q, r)
    ensures Referred(cfg, p, r)
  {
    forall k | k in p.info
      ensures r.info[k] == p.info[k].(refs := r.info[k].refs) && p.info[k].refs <= r.info[k].refs
    {
      assert q.info[k] == p.info[k].(refs := q.info[k].refs);
    }
    forall s | s in p.newTable
      ensures s in r.newTable && r.newTable[s] == p.newTable[s]
    {
      assert s in q.newTable;
    }
  }

  lemma {:induction false} HeededStays(cfg: Config, q: Manager, r: Manager, b: nat, k: int)
    requires Referred(cfg, q, r) && Heeded(cfg, q, b, k)
    ensures Heeded(cfg, r, b, k)
  {
    if k in q.info {
      assert r.info[k] == q.info[k].(refs := r.info[k].refs);
      assert RefsAt(cfg, r.info, r.newTable, k);
      var s := NewSlot(cfg, q.info[k].addr.service, b);
      assert s in q.newTable ==> s in r.newTable;
    }
  }

  lemma {:induction false} IndexRead(cfg: Config, p: Manager, b: nat, k: int, r: Manager)
    requires Shape(cfg, p) && Counted(p, 0) && NewBelow(p) && b < NEW_BUCKET_COUNT
    requires r == LoadIndex(cfg, p, b, k, true)
    ensures Referred(cfg, p, r) && Heeded(cfg, r, b, k)
    ensures forall s | s in r.newTable && s !in p.newTable :: s.bucket == b && r.newTable[s] == k
  {
    if k in p.info {
      assert RefsAt(cfg, p.info, p.newTable, k);
      var s := NewSlot(cfg, p.info[k].addr.service, b);
      if 0 <= k < p.nNew && s !in p.newTable && p.info[k].refs < NEW_BUCKETS_PER_ADDRESS {
        LinkKeeps(cfg, p, k, b, 0, p.info.Keys);
      }
    }
  }

  lemma {:induction false} BucketRead(cfg: Config, p: Manager, b: nat, list: seq<int>, n: nat, r: Manager)
    requires Shape(cfg, p) && Counted(p, 0) && NewBelow(p) && b < NEW_BUCKET_COUNT && n <= |list|
    requires r == LoadBucket(cfg, p, b, list, n, true)
    ensures Referred(cfg, p, r) && NewBelow(r)
    ensures forall i | 0 <= i < n :: Heeded(cfg, r, b, list[i])
    ensures forall s | s in r.newTable && s !in p.newTable :: s.bucket == b && r.newTable[s] in list
    decreases n
  {
    if n > 0 {
      var q := LoadBucket(cfg, p, b, list, n - 1, true);
      BucketRead(cfg, p, b, list, n - 1, q);
      IndexRead(cfg, q, b, list[n - 1], r);
      ReferredTrans(cfg, p, q, r);
      forall i | 0 <= i < n
        ensures Heeded(cfg, r, b, list[i])
      {
        if i < n - 1 {
          HeededStays(cfg, q, r, b, list[i]);
        }
      }
    }
  }

  /** The lists of the first `n` buckets are heeded as far as there is room. */
  ghost predicate ListsHeeded(cfg: Config, m: Manager, buckets: seq<seq<int>>, n: nat)
    requires n <= |buckets|
  {
    forall b, i {:trigger Heeded(cfg, m, b, buckets[b][i])} | 0 <= b < n && 0 <= i < |buckets[b]| ::
      Heeded(cfg, m, b, buckets[b][i])
  }

  /** Nothing is in a bucket that is not in its list. */
  ghost predicate OnlyListed(m: Manager, buckets: seq<seq<int>>, n: nat)
    requires n <= |buckets|
  {
    forall s {:trigger s in m.newTable} | s in m.newTable :: s.bucket < n && m.newTable[s] in buckets[s.bucket]
  }

  lemma {:induction false} BucketsRead(cfg: Config, p: Manager, buckets: seq<seq<int>>, n: nat, r: Manager)
    requires Shape(cfg, p) && Counted(p, 0) && NewBelow(p) && p.newTable == map[]
    requires n <= |buckets| && n <= NEW_BUCKET_COUNT && r == LoadBuckets(cfg, p, buckets, n, true)
    ensures Referred(cfg, p, r) && NewBelow(r) && ListsHeeded(cfg, r, buckets, n) && OnlyListed(r, buckets, n)
    decreases n
  {
    if n > 0 {
      var q := LoadBuckets(cfg, p, buckets, n - 1, true);
      BucketsRead(cfg, p, buckets, n - 1, q);
      BucketRead(cfg, q, n - 1, buckets[n - 1], |buckets[n - 1]|, r);
      ReferredTrans(cfg, p, q, r);
      forall b, i | 0 <= b < n && 0 <= i < |buckets[b]|
        ensures Heeded(cfg, r, b, buckets[b][i])
      {
        if b < n - 1 {
          HeededStays(cfg, q, r, b, buckets[b][i]);
        }
      }
    }
  }

  lemma {:induction false} BucketIgnored(cfg: Config, p: Manager, b: nat, list: seq<int>, n: nat)
    requires n <= |list|
    ensures LoadBucket(cfg, p, b, list, n, false) == p
  {
    if n > 0 {
      BucketIgnored(cfg, p, b, list, n - 1);
    }
  }

  lemma {:induction false} BucketsIgnored(cfg: Config, p: Manager, buckets: seq<seq<int>>, n: nat)
    requires n <= |buckets|
    ensures LoadBuckets(cfg, p, buckets, n, false) == p
  {
    if n > 0 {
      BucketsIgnored(cfg, p, buckets, n - 1);
      BucketIgnored(cfg, p, n - 1, buckets[n - 1], |buckets[n - 1]|);
    }
  }

  // ----- pruning

  /** `r` is `m` without the bare entries below `n`. */
  ghost predicate Pruned(cfg: Config, m: Manager, r: Manager, n: nat) {
    && Shape(cfg, r) && Counted(r, 0) && r.nextId == m.nextId
    && r.newTable == m.newTable && r.triedTable == m.triedTable
    && (forall k {:trigger k in r.info} :: k in r.info <==> k in m.info && !(0 <= k < n && IsBare(m, k)))
    && (forall k {:trigger r.info[k]} | k in r.info :: r.info[k] == m.info[k].(pos := r.info[k].pos))
  }

  lemma {:induction false} PruneNext(m: Manager, n: nat, p: Manager)
    requires Prune(m, n) == Some(p)
    ensures Prune(m, n + 1) == PruneOne(p, n)
  {
  }

  lemma {:induction false} NoneToPrune(cfg: Config, m: Manager)
    requires Shape(cfg, m) && Counted(m, 0)
    ensures Prune(m, 0) == Some(m) && Pruned(cfg, m, m, 0)
  {
  }

  lemma {:induction false} PruneKeeps(cfg: Config, m: Manager, n: nat) returns (r: Manager)
    requires Shape(cfg, m) && Counted(m, 0)
    ensures Prune(m, n) == Some(r) && Pruned(cfg, m, r, n)
  {
    if n == 0 {
      NoneToPrune(cfg, m);
      r := m;
    } else {
      var p := PruneKeeps(cfg, m, n - 1);
      PruneNext(m, n - 1, p);
      PruneStep(cfg, m, p, n - 1);
      r := PruneOne(p, n - 1).value;
    }
  }

  lemma {:induction false} PruneStep(cfg: Config, m: Manager, p: Manager, id: nat)
    requires Pruned(cfg, m, p, id)
    ensures PruneOne(p, id).Some? && Pruned(cfg, m, PruneOne(p, id).value, id + 1)
  {
    if id in p.info {
      assert p.info[id] == m.info[id].(pos := p.info[id].pos);
    }
    if IsBare(p, id) {
      DeleteKeeps(cfg, p, id, 0, p.info.Keys);
      PrunedNext(cfg, m, p, Delete(p, id).value, id);
    }
  }

  lemma {:induction false} PrunedNext(cfg: Config, m: Manager, p: Manager, r: Manager, id: nat)
    requires Pruned(cfg, m, p, id) && IsBare(p, id) && IsBare(m, id) && Gone(p, r, id) && Shape(cfg, r) && Counted(r, 0)
    ensures Pruned(cfg, m, r, id + 1)
  {
    forall k | k in r.info
      ensures r.info[k] == m.info[k].(pos := r.info[k].pos)
    {
      assert r.info[k] == p.info[k].(pos := r.info[k].pos) && p.info[k] == m.info[k].(pos := p.info[k].pos);
    }
  }

  lemma {:induction false} PrunedSettled(cfg: Config, m: Manager, r: Manager)
    requires Pruned(cfg, m, r, Max(0, m.nextId)) && Indexed(m.info, m.ids, m.nextId)
    ensures Settled(r.info, {})
  {
    forall id | id in r.info
      ensures SettledAt(r.info, id)
    {
      assert IndexedAt(m.info, m.ids, m.nextId, id) && RefsAt(cfg, r.info, r.newTable, id);
      assert r.info[id] == m.info[id].(pos := r.info[id].pos) && !IsBare(m, id);
    }
  }

  // ----- the whole stream

  /** What is left of the new records: if the lists can be used, they are heeded and
      nothing else is; if not, a record has its home slot exactly if it is the first
      to ask for it, and is lost otherwise. */
  ghost predicate NewsResult(cfg: Config, s: Stream, r: Manager) {
    && (forall k {:trigger k in r.info} | k in r.info && k < |s.news| :: NewsAt(r.info, s.news, k))
    && if Usable(s) then
         |s.buckets| == 1024 && OnlyListed(r, s.buckets, 1024) &&
         forall b, i | 0 <= b < 1024 && 0 <= i < |s.buckets[b]| && 0 <= s.buckets[b][i] < |s.news| ::
           var k := s.buckets[b][i];
           NewSlot(cfg, s.news[k].addr.service, b) in r.newTable || (k in r.info && r.info[k].refs == 8)
       else
         && (forall k | 0 <= k < |s.news| :: k in r.info <==> FirstHome(cfg, s.news, k))
         && Homes(cfg, s.news, |s.news|, r.newTable)
  }

  /** Of the tried records exactly the first for each slot is there. */
  ghost predicate TriedResult(cfg: Config, s: Stream, r: Manager) {
    && (forall k {:trigger k in r.info} | k in r.info && k >= |s.news| :: OneOf(r.info[k], s.tried, |s.tried|))
    && (forall j | 0 <= j < |s.tried| :: HasSlot(cfg, r.info, r.triedTable, s.tried, j))
  }

  /** The four passes over the stream. */
  lemma {:induction false} Passes(cfg: Config, s: Stream, c: Config, n: Manager, t: Manager, b: Manager)
    requires Accepted(s) && c == cfg.(key := s.key)
    requires n == LoadNew(c, EMPTY.(nNew := s.nNew, nTried := s.nTried), s.news, |s.news|, Usable(s))
    requires t == LoadTried(c, n.(nextId := s.nNew), s.tried, |s.tried|)
    requires b == LoadBuckets(c, t, s.buckets, |s.buckets|, Usable(s))
    ensures Unserialize(cfg, s) == Prune(b, Max(0, b.nextId))
  {
  }

  /** What the passes before the last leave. */
  ghost predicate Complete(cfg: Config, s: Stream, t: Manager, b: Manager) {
    && TriedRead(cfg, s.news, s.tried, |s.tried|, t) && Referred(cfg, t, b) && NewBelow(b)
    && if Usable(s)
       then |s.buckets| == 1024 && ListsHeeded(cfg, b, s.buckets, 1024) && OnlyListed(b, s.buckets, 1024)
       else Homes(cfg, s.news, |s.news|, b.newTable)
  }

  lemma {:induction false} ReadBuckets(cfg: Config, s: Stream, n: Manager, t: Manager, b: Manager)
    requires Accepted(s) && NewsRead(cfg, s.news, |s.news|, Usable(s), n) && t.newTable == n.newTable
    requires TriedRead(cfg, s.news, s.tried, |s.tried|, t)
    requires b == LoadBuckets(cfg, t, s.buckets, |s.buckets|, Usable(s))
    ensures Complete(cfg, s, t, b)
  {
    assert t.(nTried := t.nextId - |s.news|) == t;
    forall k | k in t.info && k < t.nNew
      ensures !t.info[k].tried
    {
      assert EntryAt(t.info, s.news, s.tried, |s.tried|, k);
    }
    if Usable(s) {
      BucketsRead(cfg, t, s.buckets, 1024, b);
    } else {
      BucketsIgnored(cfg, t, s.buckets, |s.buckets|);
    }
  }

  lemma {:induction false} ReadPasses(cfg: Config, s: Stream) returns (t: Manager, b: Manager)
    requires Accepted(s) && s.nNew >= 0 && s.nTried >= 0 && NoAddressTwice(s.news, s.tried)
    ensures Unserialize(cfg, s) == Prune(b, Max(0, b.nextId)) && Complete(cfg.(key := s.key), s, t, b)
  {
    var c, start := cfg.(key := s.key), EMPTY.(nNew := s.nNew, nTried := s.nTried);
    NewsDistinct(s);
    var n := LoadNew(c, start, s.news, |s.news|, Usable(s));
    LoadNewRead(c, start, s.news, |s.news|, Usable(s), n);
    var m := n.(nextId := s.nNew);
    TriedStart(c, s.news, s.tried, Usable(s), n, m);
    t := LoadTriedRead(c, s.news, s.tried, m, |s.tried|);
    LoadTriedTable(c, s.tried, m, |s.tried|);
    b := LoadBuckets(c, t, s.buckets, |s.buckets|, Usable(s));
    ReadBuckets(c, s, n, t, b);
    Passes(cfg, s, c, n, t, b);
  }

  lemma {:induction false} NewsDistinct(s: Stream)
    requires NoAddressTwice(s.news, s.tried)
    ensures DistinctAddresses(s.news)
  {
    var all := s.news + s.tried;
    forall i, j | 0 <= i < j < |s.news|
      ensures s.news[i].addr.service.addr != s.news[j].addr.service.addr
    {
      assert all[i] == s.news[i] && all[j] == s.news[j];
    }
  }

  /** At its home, the first record that asks for it is the one entry. */
  lemma {:induction false} KeptIffFirst(cfg: Config, s: Stream, b: Manager, k: int)
    requires Shape(cfg, b) && Homes(cfg, s.news, |s.news|, b.newTable)
    requires 0 <= k < |s.news| && k in b.info && IsRecord(b.info[k], s.news[k], false)
    ensures b.info[k].refs != 0 <==> FirstHome(cfg, s.news, k)
  {
    var here := b.info[k].addr.service;
    var there := Buckets(cfg, here, b.newTable, k);
    assert RefsAt(cfg, b.info, b.newTable, k);
    if FirstHome(cfg, s.news, k) {
      var home := RecordHome(cfg, s.news[k]);
      var j := b.newTable[home];
      assert FirstHome(cfg, s.news, j) && RecordHome(cfg, s.news[j]) == home;
      assert j == k;
      assert InBucket(cfg, here, b.newTable, k, home.bucket) && home.bucket in there;
    }
    if b.info[k].refs != 0 {
      var c :| c in there;
      assert InBucket(cfg, here, b.newTable, k, c);
    }
  }

  lemma {:induction false} EntryKept(cfg: Config, s: Stream, t: Manager, b: Manager, r: Manager, n: nat, k: int)
    requires Complete(cfg, s, t, b) && Pruned(cfg, b, r, n) && k in r.info
    ensures k in t.info && EntryAt(t.info, s.news, s.tried, |s.tried|, k)
    ensures r.info[k] == t.info[k].(refs := r.info[k].refs, pos := r.info[k].pos) && r.info[k].refs == b.info[k].refs
  {
    assert r.info[k] == b.info[k].(pos := r.info[k].pos) && b.info[k] == t.info[k].(refs := b.info[k].refs);
  }

  lemma {:induction false} NewsLeft(cfg: Config, s: Stream, t: Manager, b: Manager, r: Manager)
    requires Complete(cfg, s, t, b) && Pruned(cfg, b, r, Max(0, b.nextId))
    ensures NewsResult(cfg, s, r)
  {
    forall k | k in r.info && k < |s.news|
      ensures NewsAt(r.info, s.news, k)
    {
      EntryKept(cfg, s, t, b, r, Max(0, b.nextId), k);
    }
    if Usable(s) {
      forall l, i | 0 <= l < 1024 && 0 <= i < |s.buckets[l]| && 0 <= s.buckets[l][i] < |s.news|
        ensures var k := s.buckets[l][i];
                NewSlot(cfg, s.news[k].addr.service, l) in r.newTable || (k in r.info && r.info[k].refs == 8)
      {
        ListedLeft(cfg, s, t, b, r, l, s.buckets[l][i]);
      }
    } else {
      forall k | 0 <= k < |s.news|
        ensures k in r.info <==> FirstHome(cfg, s.news, k)
      {
        assert k in t.info && EntryAt(t.info, s.news, s.tried, |s.tried|, k);
        assert b.info[k] == t.info[k].(refs := b.info[k].refs);
        KeptIffFirst(cfg, s, b, k);
      }
    }
  }

  lemma {:induction false} ListedLeft(cfg: Config, s: Stream, t: Manager, b: Manager, r: Manager, l: nat, k: int)
    requires Complete(cfg, s, t, b) && Pruned(cfg, b, r, Max(0, b.nextId)) && Heeded(cfg, b, l, k) && 0 <= k < |s.news|
    ensures NewSlot(cfg, s.news[k].addr.service, l) in r.newTable || (k in r.info && r.info[k].refs == 8)
  {
    assert k in t.info && EntryAt(t.info, s.news, s.tried, |s.tried|, k);
    assert b.info[k] == t.info[k].(refs := b.info[k].refs);
    if b.info[k].refs == 8 {
      EntryKept(cfg, s, t, b, r, Max(0, b.nextId), k);
    }
  }

  lemma {:induction false} TriedLeft(cfg: Config, s: Stream, t: Manager, b: Manager, r: Manager)
    requires Complete(cfg, s, t, b) && Pruned(cfg, b, r, Max(0, b.nextId))
    ensures TriedResult(cfg, s, r)
  {
    forall k | k in r.info && k >= |s.news|
      ensures OneOf(r.info[k], s.tried, |s.tried|)
    {
      EntryKept(cfg, s, t, b, r, Max(0, b.nextId), k);
      var j :| 0 <= j < |s.tried| && IsRecord(t.info[k], s.tried[j], true);
      assert IsRecord(r.info[k], s.tried[j], true);
    }
    forall j | 0 <= j < |s.tried|
      ensures HasSlot(cfg, r.info, r.triedTable, s.tried, j)
    {
      assert HasSlot(cfg, t.info, t.triedTable, s.tried, j);
      if FirstTried(cfg, s.tried, j) {
        var k := t.triedTable[TriedSlot(cfg, s.tried[j].addr.service)];
        assert b.info[k] == t.info[k].(refs := b.info[k].refs) && !IsBare(b, k);
        EntryKept(cfg, s, t, b, r, Max(0, b.nextId), k);
      }
    }
  }

  /** Any stream with the data it announces, as long as no address comes twice, is
      read without a failing assertion into a sound manager, whatever its version,
      its bucket lists and the collisions among its records. */
  lemma {:induction false} ReadAny(cfg: Config, s: Stream)
    requires Accepted(s) && s.nNew >= 0 && s.nTried >= 0 && NoAddressTwice(s.news, s.tried)
    ensures Unserialize(cfg, s).Some?
    ensures var c, r := cfg.(key := s.key), Unserialize(cfg, s).value;
            Structured(c, r) && NewsResult(c, s, r) && TriedResult(c, s, r)
  {
    var c := cfg.(key := s.key);
    var t, b := ReadPasses(cfg, s);
    var r := PruneKeeps(c, b, Max(0, b.nextId));
    PrunedSettled(c, b, r);
    NewsLeft(c, s, t, b, r);
    TriedLeft(c, s, t, b, r);
  }

  // ----- negative numbers of entries

  lemma {:induction false} LoadNewNumbers(cfg: Config, m: Manager, recs: seq<Record>, n: nat, usable: bool)
    requires n <= |recs|
    ensures var r := LoadNew(cfg, m, recs, n, usable); r.nNew == m.nNew && r.nTried == m.nTried
  {
    if n > 0 {
      LoadNewNumbers(cfg, m, recs, n - 1, usable);
    }
  }

  lemma {:induction false} LoadTriedNumbers(cfg: Config, m: Manager, recs: seq<Record>, n: nat)
    requires n <= |recs|
    ensures var r := LoadTried(cfg, m, recs, n); r.nNew == m.nNew && r.nTried <= m.nTried
  {
    if n > 0 {
      LoadTriedNumbers(cfg, m, recs, n - 1);
    }
  }

  lemma {:induction false} LoadBucketNumbers(cfg: Config, m: Manager, b: nat, list: seq<int>, n: nat, usable: bool)
    requires n <= |list|
    ensures var r := LoadBucket(cfg, m, b, list, n, usable); r.nNew == m.nNew && r.nTried == m.nTried
  {
    if n > 0 {
      LoadBucketNumbers(cfg, m, b, list, n - 1, usable);
    }
  }

  lemma {:induction false} LoadBucketsNumbers(cfg: Config, m: Manager, buckets: seq<seq<int>>, n: nat, usable: bool)
    requires n <= |buckets|
    ensures var r := LoadBuckets(cfg, m, buckets, n, usable); r.nNew == m.nNew && r.nTried == m.nTried
  {
    if n > 0 {
      LoadBucketsNumbers(cfg, m, buckets, n - 1, usable);
      var p := LoadBuckets(cfg, m, buckets, n - 1, usable);
      LoadBucketNumbers(cfg, p, n - 1, buckets[n - 1], |buckets[n - 1]|, usable);
    }
  }

  lemma {:induction false} PruneNumbers(m: Manager, n: nat)
    ensures var r := Prune(m, n); r.Some? ==> r.value.nNew <= m.nNew && r.value.nTried == m.nTried
  {
    if n > 0 {
      PruneNumbers(m, n - 1);
    }
  }

  /** Of the streams that are read and name no address twice, exactly those with a
      negative number of entries leave a manager whose counters are wrong. */
  lemma {:induction false} SoundIff(cfg: Config, s: Stream)
    requires Unserialize(cfg, s).Some? && NoAddressTwice(s.news, s.tried)
    ensures Structured(cfg.(key := s.key), Unserialize(cfg, s).value) <==> s.nNew >= 0 && s.nTried >= 0
  {
    OnlyAccepted(cfg, s);
    if s.nNew >= 0 && s.nTried >= 0 {
      ReadAny(cfg, s);
    } else {
      NegativeCounts(cfg, s);
    }
  }

  lemma {:induction false} NegativeCounts(cfg: Config, s: Stream)
    requires Unserialize(cfg, s).Some? && (s.nNew < 0 || s.nTried < 0)
    ensures var r := Unserialize(cfg, s).value; r.nNew < 0 || r.nTried < 0
  {
    OnlyAccepted(cfg, s);
    var c, start := cfg.(key := s.key), EMPTY.(nNew := s.nNew, nTried := s.nTried);
    var n := LoadNew(c, start, s.news, |s.news|, Usable(s));
    LoadNewNumbers(c, start, s.news, |s.news|, Usable(s));
    var m := n.(nextId := s.nNew);
    var t := LoadTried(c, m, s.tried, |s.tried|);
    LoadTriedNumbers(c, m, s.tried, |s.tried|);
    var b := LoadBuckets(c, t, s.buckets, |s.buckets|, Usable(s));
    LoadBucketsNumbers(c, t, s.buckets, |s.buckets|, Usable(s));
    Passes(cfg, s, c, n, t, b);
    PruneNumbers(b, Max(0, b.nextId));
  }
}
