/**
  CAddrMan as an object whose methods update its tables in place
  (src/addrman.cpp).  Every method is proved against the function of the same
  name in module `AddrMan`; the assertions of the source are proved where the
  source has them.
 */
module AddrManObject {
  import opened Common
  import opened AddrMan
  import opened AddrManInv

  /** The occupied slots of a bucket table. */
  ghost function TableOf(a: array2<int>): Table
    reads a
  {
    map b: nat, i: nat | b < a.Length0 && i < a.Length1 && a[b, i] != -1 :: Slot(b, i) := a[b, i]
  }

  method Put(a: array2<int>, b: nat, i: nat, v: int)
    requires b < a.Length0 && i < a.Length1
    modifies a
    ensures a[b, i] == v
    ensures forall c: nat, j: nat | c < a.Length0 && j < a.Length1 && (c, j) != (b, i) :: a[c, j] == old(a[c, j])
    ensures TableOf(a) == if v == -1 then old(TableOf(a)) - {Slot(b, i)} else old(TableOf(a))[Slot(b, i) := v]
  {
    a[b, i] := v;
  }

  method ClearTable(a: array2<int>)
    modifies a
    ensures TableOf(a) == map[]
  {
    for bucket := 0 to a.Length0
      invariant forall b, i | 0 <= b < bucket && 0 <= i < a.Length1 :: a[b, i] == -1
    {
      for entry := 0 to a.Length1
        invariant forall b, i | 0 <= b < bucket && 0 <= i < a.Length1 :: a[b, i] == -1
        invariant forall i | 0 <= i < entry :: a[bucket, i] == -1
      {
        a[bucket, entry] := -1;
      }
    }
  }

  class AddressManager {
    const cfg: Config
    var nIdCount: int
    var mapInfo: Infos
    var mapAddr: map<NetAddr, int>
    var vRandom: seq<int>
    var nTried: int
    const vvTried: array2<int>
    var nNew: int
    const vvNew: array2<int>
    var nLastGood: int

    ghost predicate Valid()
      reads this
    {
      && vvNew.Length0 == NEW_BUCKET_COUNT && vvNew.Length1 == BUCKET_SIZE
      && vvTried.Length0 == TRIED_BUCKET_COUNT && vvTried.Length1 == BUCKET_SIZE
      && vvNew != vvTried
    }

    ghost function Model(): Manager
      reads this, vvNew, vvTried
    {
      Manager(nIdCount, mapInfo, mapAddr, vRandom, TableOf(vvNew), TableOf(vvTried), nNew, nTried, nLastGood)
    }

    constructor (config: Config)
      ensures Valid() && fresh(vvNew) && fresh(vvTried) && cfg == config
      ensures Model() == EMPTY
    {
      cfg := config;
      mapInfo, mapAddr := map[], map[];
      vvNew := new int[NEW_BUCKET_COUNT, BUCKET_SIZE];
      vvTried := new int[TRIED_BUCKET_COUNT, BUCKET_SIZE];
      new;
      Clear();
    }

    /** Does not touch the maps of entries. */
    method Clear()
      requires Valid()
      modifies this, vvNew, vvTried
      ensures Model() == EMPTY.(info := old(mapInfo), ids := old(mapAddr))
    {
      vRandom := [];
      ClearTable(vvNew);
      ClearTable(vvTried);
      nIdCount, nTried, nNew, nLastGood := 0, 0, 0, 1;
    }

    method Create(addr: Address, source: NetAddr) returns (nId: int)
      requires Valid()
      modifies this
      ensures Model() == AddrMan.Create(old(Model()), addr, source) && nId == old(nIdCount)
    {
      nId := nIdCount;
      nIdCount := nIdCount + 1;
      mapInfo := mapInfo[nId := Info(addr, source, 0, 0, 0, 0, 0, false, |vRandom|)];
      mapAddr := mapAddr[addr.service.addr := nId];
      vRandom := vRandom + [nId];
    }

    method SwapRandom(nRndPos1: int, nRndPos2: int)
      requires Valid() && AddrMan.SwapRandom(Model(), nRndPos1, nRndPos2).Some?
      modifies this
      ensures Model() == AddrMan.SwapRandom(old(Model()), nRndPos1, nRndPos2).value
    {
      if nRndPos1 == nRndPos2 {
        return;
      }
      assert 0 <= nRndPos1 < |vRandom| && 0 <= nRndPos2 < |vRandom|;
      var nId1, nId2 := vRandom[nRndPos1], vRandom[nRndPos2];
      assert nId1 in mapInfo;
      assert nId2 in mapInfo;
      mapInfo := mapInfo[nId1 := mapInfo[nId1].(pos := nRndPos2)];
      mapInfo := mapInfo[nId2 := mapInfo[nId2].(pos := nRndPos1)];
      vRandom := vRandom[nRndPos1 := nId2];
      vRandom := vRandom[nRndPos2 := nId1];
    }

    method Delete(nId: int)
      requires Valid() && AddrMan.Delete(Model(), nId).Some?
      modifies this
      ensures Model() == AddrMan.Delete(old(Model()), nId).value
    {
      ghost var s := DeleteParts(Model(), nId);
      assert nId in mapInfo;
      var info := mapInfo[nId];
      assert !info.tried;
      assert info.refs == 0;
      SwapRandom(info.pos, |vRandom| - 1);
      assert Model() == s;
      vRandom := vRandom[..|vRandom| - 1];
      mapAddr := mapAddr - {info.addr.service.addr};
      mapInfo := mapInfo - {nId};
      nNew := nNew - 1;
    }

    method ClearNew(nUBucket: nat, nUBucketPos: nat)
      requires Valid() && nUBucket < NEW_BUCKET_COUNT && nUBucketPos < BUCKET_SIZE
      requires AddrMan.ClearNew(Model(), Slot(nUBucket, nUBucketPos)).Some?
      modifies this, vvNew
      ensures Model() == AddrMan.ClearNew(old(Model()), Slot(nUBucket, nUBucketPos)).value
    {
      if vvNew[nUBucket, nUBucketPos] != -1 {
        var nIdDelete := vvNew[nUBucket, nUBucketPos];
        assert nIdDelete in mapInfo && mapInfo[nIdDelete].refs > 0;
        var infoDelete := mapInfo[nIdDelete].(refs := mapInfo[nIdDelete].refs - 1);
        mapInfo := mapInfo[nIdDelete := infoDelete];
        Put(vvNew, nUBucket, nUBucketPos, -1);
        assert Model() == Unref(old(Model()), Slot(nUBucket, nUBucketPos));
        if infoDelete.refs == 0 {
          Delete(nIdDelete);
        }
      }
    }

    /** The loop at the head of MakeTried. */
    method RemoveFromNew(nId: int)
      requires Valid() && nId in mapInfo && nId >= 0
      requires NewPlaced(cfg, mapInfo, TableOf(vvNew)) && RefsAt(cfg, mapInfo, TableOf(vvNew), nId)
      modifies this`mapInfo, vvNew
      ensures Model() == Unlink(old(Model()), nId)
    {
      ghost var table := TableOf(vvNew);
      var refs := mapInfo[nId].refs;
      var s := mapInfo[nId].addr.service;
      for bucket := 0 to NEW_BUCKET_COUNT
        invariant mapInfo == old(mapInfo) && TableOf(vvTried) == old(TableOf(vvTried))
        invariant TableOf(vvNew) == Remaining(cfg, s, table, nId, bucket)
        invariant refs == mapInfo[nId].refs - |Searched(cfg, s, table, nId, bucket)|
      {
        refs := LeaveBucket(nId, s, bucket, refs, table);
      }
      assert Searched(cfg, s, table, nId, NEW_BUCKET_COUNT) == Buckets(cfg, s, table, nId);
      RemainingNone(cfg, mapInfo, table, nId);
      mapInfo := mapInfo[nId := mapInfo[nId].(refs := refs)];
    }

    method LeaveBucket(nId: int, s: Service, bucket: nat, refs: int, ghost table: Table) returns (left: int)
      requires Valid() && nId >= 0 && bucket < NEW_BUCKET_COUNT
      requires TableOf(vvNew) == Remaining(cfg, s, table, nId, bucket)
      modifies vvNew
      ensures TableOf(vvNew) == Remaining(cfg, s, table, nId, bucket + 1)
      ensures left == refs + |Searched(cfg, s, table, nId, bucket)| - |Searched(cfg, s, table, nId, bucket + 1)|
    {
      var pos := Position(cfg, true, bucket, s);
      RemainingStep(cfg, s, table, nId, bucket);
      SearchedStep(cfg, s, table, nId, bucket);
      left := refs;
      if vvNew[bucket, pos] == nId {
        Put(vvNew, bucket, pos, -1);
        left := left - 1;
      }
    }

    method MakeTried(nId: int)
      requires Valid() && Structured(cfg, Model()) && nId in mapInfo && !mapInfo[nId].tried
      modifies this, vvNew, vvTried
      ensures AddrMan.MakeTried(cfg, old(Model()), nId).Some?
      ensures Model() == AddrMan.MakeTried(cfg, old(Model()), nId).value
    {
      MakeTriedKeeps(cfg, Model(), nId);
      assert IndexedAt(mapInfo, mapAddr, nIdCount, nId) && RefsAt(cfg, mapInfo, TableOf(vvNew), nId);
      MakeTriedCode(nId);
    }

    /** MakeTried, given that no assertion of it can fire. */
    method MakeTriedCode(nId: int)
      requires Valid() && nId in mapInfo && nId >= 0
      requires NewPlaced(cfg, mapInfo, TableOf(vvNew)) && RefsAt(cfg, mapInfo, TableOf(vvNew), nId)
      requires AddrMan.MakeTried(cfg, Model(), nId).Some?
      modifies this, vvNew, vvTried
      ensures Model() == AddrMan.MakeTried(cfg, old(Model()), nId).value
    {
      ghost var u, e := MakeTriedParts(cfg, Model(), nId);
      var s := mapInfo[nId].addr.service;
      RemoveFromNew(nId);
      nNew := nNew - 1;
      assert mapInfo[nId].refs == 0;
      assert Model() == u;

      var nKBucket := TriedBucket(cfg, s);
      var nKBucketPos := Position(cfg, false, nKBucket, s);
      EmptyTried(nKBucket, nKBucketPos);
      assert Model() == e;
      EnterTried(nId, nKBucket, nKBucketPos);
    }

    method EnterTried(nId: int, nKBucket: nat, nKBucketPos: nat)
      requires Valid() && nId in mapInfo && nId >= 0 && nKBucket < TRIED_BUCKET_COUNT && nKBucketPos < BUCKET_SIZE
      requires Slot(nKBucket, nKBucketPos) !in Model().triedTable
      modifies this`mapInfo, this`nTried, vvTried
      ensures Model() == PutTried(old(Model()), nId, Slot(nKBucket, nKBucketPos))
    {
      assert vvTried[nKBucket, nKBucketPos] == -1;
      Put(vvTried, nKBucket, nKBucketPos, nId);
      nTried := nTried + 1;
      mapInfo := mapInfo[nId := mapInfo[nId].(tried := true)];
    }

    method LeaveTried(nKBucket: nat, nKBucketPos: nat) returns (nIdEvict: int)
      requires Valid() && nKBucket < TRIED_BUCKET_COUNT && nKBucketPos < BUCKET_SIZE
      requires Slot(nKBucket, nKBucketPos) in TableOf(vvTried)
      requires TableOf(vvTried)[Slot(nKBucket, nKBucketPos)] in mapInfo
      modifies this`mapInfo, this`nTried, vvTried
      ensures Model() == Untry(old(Model()), Slot(nKBucket, nKBucketPos))
      ensures nIdEvict == old(TableOf(vvTried)[Slot(nKBucket, nKBucketPos)]) && nIdEvict != -1
    {
      nIdEvict := vvTried[nKBucket, nKBucketPos];
      mapInfo := mapInfo[nIdEvict := mapInfo[nIdEvict].(tried := false)];
      Put(vvTried, nKBucket, nKBucketPos, -1);
      nTried := nTried - 1;
    }

    /** Enters an entry into a new slot, with `nRefs` references from now on. */
    method EnterNew(nId: int, nUBucket: nat, nUBucketPos: nat, nRefs: int)
      requires Valid() && nId in mapInfo && nId != -1 && nUBucket < NEW_BUCKET_COUNT && nUBucketPos < BUCKET_SIZE
      modifies this`mapInfo, vvNew
      ensures Model() == Link(old(Model()), nId, Slot(nUBucket, nUBucketPos), nRefs)
    {
      mapInfo := mapInfo[nId := mapInfo[nId].(refs := nRefs)];
      Put(vvNew, nUBucket, nUBucketPos, nId);
    }

    /** The same for a slot that is free, with one reference. */
    method EnterFree(nId: int, nUBucket: nat, nUBucketPos: nat)
      requires Valid() && nId in mapInfo && nId != -1 && nUBucket < NEW_BUCKET_COUNT && nUBucketPos < BUCKET_SIZE
      requires Slot(nUBucket, nUBucketPos) !in Model().newTable
      modifies this`mapInfo, vvNew
      ensures Model() == Link(old(Model()), nId, Slot(nUBucket, nUBucketPos), 1)
    {
      assert vvNew[nUBucket, nUBucketPos] == -1;
      EnterNew(nId, nUBucket, nUBucketPos, 1);
    }

    method EmptyTried(nKBucket: nat, nKBucketPos: nat)
      requires Valid() && nKBucket < TRIED_BUCKET_COUNT && nKBucketPos < BUCKET_SIZE
      requires MakeRoom(cfg, Model(), Slot(nKBucket, nKBucketPos)).Some?
      modifies this, vvNew, vvTried
      ensures Model() == MakeRoom(cfg, old(Model()), Slot(nKBucket, nKBucketPos)).value
    {
      if vvTried[nKBucket, nKBucketPos] != -1 {
        EvictFrom(nKBucket, nKBucketPos);
      }
    }

    /** Moves the occupant of a tried slot back to the new table. */
    method EvictFrom(nKBucket: nat, nKBucketPos: nat)
      requires Valid() && nKBucket < TRIED_BUCKET_COUNT && nKBucketPos < BUCKET_SIZE
      requires Slot(nKBucket, nKBucketPos) in Model().triedTable
      requires Evict(cfg, Model(), Slot(nKBucket, nKBucketPos)).Some?
      modifies this, vvNew, vvTried
      ensures Model() == Evict(cfg, old(Model()), Slot(nKBucket, nKBucketPos)).value
    {
      ghost var u, c := EvictParts(cfg, Model(), Slot(nKBucket, nKBucketPos));
      var nIdEvict := LeaveTried(nKBucket, nKBucketPos);
      assert Model() == u;
      var s := mapInfo[nIdEvict].addr.service;
      var nUBucket := NewBucket(cfg, s, mapInfo[nIdEvict].source);
      var nUBucketPos := Position(cfg, true, nUBucket, s);
      ClearNew(nUBucket, nUBucketPos);
      assert Model() == c;
      EnterFree(nIdEvict, nUBucket, nUBucketPos);
      nNew := nNew + 1;
    }

    method Find(addr: NetAddr) returns (found: Option<int>)
      ensures found == AddrMan.Find(Model(), addr)
    {
      if addr !in mapAddr {
        return None;
      }
      return if mapAddr[addr] in mapInfo then Some(mapAddr[addr]) else None;
    }

    /** Searches the buckets from `nRnd` on, wrapping around. */
    method FindBucket(nId: int, nRnd: nat) returns (nUBucket: int)
      requires Valid() && nId in mapInfo && nId >= 0
      ensures nUBucket == -1 <==> Buckets(cfg, mapInfo[nId].addr.service, TableOf(vvNew), nId) == {}
      ensures nUBucket != -1 ==> nUBucket in Buckets(cfg, mapInfo[nId].addr.service, TableOf(vvNew), nId)
    {
      var s := mapInfo[nId].addr.service;
      ghost var table := TableOf(vvNew);
      nUBucket := -1;
      var n := 0;
      while n < NEW_BUCKET_COUNT
        invariant 0 <= n <= NEW_BUCKET_COUNT
        invariant forall k: nat | k < n :: !InBucket(cfg, s, table, nId, Around(k, nRnd))
      {
        var nB := Around(n, nRnd);
        var nBpos := Position(cfg, true, nB, s);
        if vvNew[nB, nBpos] == nId {
          assert InBucket(cfg, s, table, nId, nB);
          assert nB in Buckets(cfg, s, table, nId);
          return nB;
        }
        n := n + 1;
      }
      forall b: nat | b < NEW_BUCKET_COUNT
        ensures !InBucket(cfg, s, table, nId, b)
      {
        var k := (b - nRnd) % NEW_BUCKET_COUNT;
        assert Around(k, nRnd) == b;
      }
    }

    /** Good, once the entry is found. */
    method GoodFound(nId: int, nTime: int, nRnd: nat)
      requires Valid() && Structured(cfg, Model()) && nId in mapInfo
      modifies this, vvNew, vvTried
      ensures GoodEntry(cfg, old(Model()), nId, nTime).Some?
      ensures Model() == GoodEntry(cfg, old(Model()), nId, nTime).value
    {
      ghost var g := Model();
      GoodEntryKeeps(cfg, g, nId, nTime);
      assert IndexedAt(g.info, g.ids, g.nextId, nId) && RefsAt(cfg, g.info, g.newTable, nId);
      var info := mapInfo[nId].(lastSuccess := nTime, lastTry := nTime, attempts := 0);
      SetInfoKeeps(cfg, g, nId, info, 0, {});
      mapInfo := mapInfo[nId := info];
      assert Model() == SetInfo(g, nId, info);
      if info.tried {
        return;
      }
      var nUBucket := FindBucket(nId, nRnd);
      if nUBucket == -1 {
        return;
      }
      MakeTried(nId);
    }

    method Good(addr: Service, nTime: int, nRnd: nat)
      requires Valid() && Structured(cfg, Model())
      modifies this, vvNew, vvTried
      ensures AddrMan.Good(cfg, old(Model()), addr, nTime).Some?
      ensures Model() == AddrMan.Good(cfg, old(Model()), addr, nTime).value
      ensures Structured(cfg, Model())
      ensures old(Inv(cfg, Model())) ==> (Inv(cfg, Model()) <==> !Knows(old(Model()), addr) || nTime > 0)
    {
      GoodKeeps(cfg, Model(), addr, nTime);
      if Inv(cfg, Model()) {
        GoodConsistentIff(cfg, Model(), addr, nTime);
      }
      nLastGood := nTime;
      var found := Find(addr.addr);
      if found == None || mapInfo[found.value].addr.service != addr {
        return;
      }
      GoodFound(found.value, nTime, nRnd);
    }

    method Attempt(addr: Service, fCountFailure: bool, nTime: int)
      requires Valid()
      modifies this`mapInfo
      ensures Model() == AddrMan.Attempt(old(Model()), addr, fCountFailure, nTime)
    {
      var found := Find(addr.addr);
      if found == None || mapInfo[found.value].addr.service != addr {
        return;
      }
      var info := mapInfo[found.value].(lastTry := nTime);
      if fCountFailure && info.lastCount < nLastGood {
        info := info.(lastCount := nTime, attempts := info.attempts + 1);
      }
      mapInfo := mapInfo[found.value := info];
    }

    /** Puts an entry into the bucket of `source`: the end of Add_. */
    method PlaceInNew(nId: int, source: NetAddr, now: int)
      requires Valid() && nId in mapInfo && nId >= 0
      requires PlaceNew(cfg, Model(), nId, source, now).Some?
      modifies this, vvNew
      ensures Model() == PlaceNew(cfg, old(Model()), nId, source, now).value
    {
      var s := mapInfo[nId].addr.service;
      var nUBucket := NewBucket(cfg, s, source);
      var nUBucketPos := Position(cfg, true, nUBucket, s);
      var nIdThere := vvNew[nUBucket, nUBucketPos];
      if nIdThere == nId {
        return;
      }
      var fInsert := nIdThere == -1;
      if !fInsert {
        assert Slot(nUBucket, nUBucketPos) in TableOf(vvNew);
        var infoExisting := mapInfo[nIdThere];
        if IsTerrible(infoExisting, now) || (infoExisting.refs > 1 && mapInfo[nId].refs == 0) {
          fInsert := true;
        }
      }
      if fInsert {
        ClearNew(nUBucket, nUBucketPos);
        EnterNew(nId, nUBucket, nUBucketPos, mapInfo[nId].refs + 1);
      } else if mapInfo[nId].refs == 0 {
        Delete(nId);
      }
    }

    /** Whether an entry seen again gets another reference; doubles `nFactor`
        once per reference it has. */
    method PassesTest(info: Info, addr: Address, random: nat) returns (pass: bool)
      ensures pass == WantsReference(info, addr, random)
    {
      if addr.time == 0 || (info.addr.time != 0 && addr.time <= info.addr.time) {
        return false;
      }
      if info.tried || info.refs == NEW_BUCKETS_PER_ADDRESS {
        return false;
      }
      var nFactor := 1;
      var n := 0;
      while n < info.refs
        invariant 0 <= n && (n <= info.refs || n == 0) && nFactor == Factor(n)
      {
        nFactor := nFactor * 2;
        n := n + 1;
      }
      return !(nFactor > 1 && random % nFactor != 0);
    }

    method Add(addr: Address, source: NetAddr, nTimePenalty: int, now: int, random: nat) returns (fNew: bool)
      requires Valid() && Structured(cfg, Model())
      modifies this, vvNew
      ensures AddrMan.Add(cfg, old(Model()), addr, source, nTimePenalty, now, random).Some?
      ensures (Model(), fNew) == AddrMan.Add(cfg, old(Model()), addr, source, nTimePenalty, now, random).value
      ensures Structured(cfg, Model()) && (old(Inv(cfg, Model())) ==> Inv(cfg, Model()))
    {
      AddKeeps(cfg, Model(), addr, source, nTimePenalty, now, random);
      if Timed(mapInfo) {
        AddTimed(cfg, Model(), addr, source, nTimePenalty, now, random);
      }
      if !cfg.routable(addr.service.addr) {
        return false;
      }
      var penalty := if addr.service.addr == source then 0 else nTimePenalty;
      var found := Find(addr.service.addr);
      match found
      case Some(nId) =>
        assert IndexedAt(mapInfo, mapAddr, nIdCount, nId);
        AddAgain(nId, addr, source, penalty, now, random);
        return false;
      case None =>
        AddFirst(addr, source, penalty, now);
        return true;
    }

    method AddAgain(nId: int, addr: Address, source: NetAddr, penalty: int, now: int, random: nat)
      requires Valid() && nId in mapInfo && nId >= 0
      requires AddKnown(cfg, Model(), nId, addr, source, penalty, now, random).Some?
      modifies this, vvNew
      ensures Model() == AddKnown(cfg, old(Model()), nId, addr, source, penalty, now, random).value
    {
      var info := Refreshed(mapInfo[nId], addr, penalty, now);
      mapInfo := mapInfo[nId := info];
      var pass := PassesTest(info, addr, random);
      if pass {
        PlaceInNew(nId, source, now);
      }
    }

    method AddFirst(addr: Address, source: NetAddr, penalty: int, now: int)
      requires Valid() && nIdCount >= 0
      requires AddUnknown(cfg, Model(), addr, source, penalty, now).Some?
      modifies this, vvNew
      ensures Model() == AddUnknown(cfg, old(Model()), addr, source, penalty, now).value
    {
      var nId := Enroll(addr, source, penalty);
      PlaceInNew(nId, source, now);
    }

    method Enroll(addr: Address, source: NetAddr, penalty: int) returns (nId: int)
      requires Valid()
      modifies this
      ensures Model() == Enrolled(old(Model()), addr, source, penalty) && nId == old(nIdCount)
    {
      nId := Create(addr.(time := Max(0, addr.time - penalty)), source);
      nNew := nNew + 1;
    }

    method GetAddr(random: nat -> nat, now: int) returns (vAddr: seq<Address>)
      requires Valid() && Structured(cfg, Model())
      modifies this
      ensures AddrMan.GetAddr(old(Model()), random, now) == Some((Model(), vAddr))
      ensures Structured(cfg, Model()) && (old(Inv(cfg, Model())) ==> Inv(cfg, Model()))
    {
      GetAddrKeeps(cfg, Model(), random, now);
      if Timed(mapInfo) {
        MovedTimed(mapInfo, AddrMan.GetAddr(Model(), random, now).value.0.info);
      }
      vAddr := Shuffle(random, now);
    }

    /** GetAddr_, given that no assertion of it can fire. */
    method Shuffle(random: nat -> nat, now: int) returns (vAddr: seq<Address>)
      requires Valid() && AddrMan.GetAddr(Model(), random, now).Some?
      modifies this
      ensures AddrMan.GetAddr(old(Model()), random, now) == Some((Model(), vAddr))
    {
      var nNodes := GETADDR_MAX_PCT * |vRandom| / 100;
      if nNodes > GETADDR_MAX {
        nNodes := GETADDR_MAX;
      }
      vAddr := [];
      ghost var goal := AddrMan.GetAddr(Model(), random, now);
      var n := 0;
      while n < |vRandom| && |vAddr| < nNodes
        invariant 0 <= n <= |vRandom| && goal.Some?
        invariant goal == GetAddrFrom(Model(), n, nNodes, random, now, vAddr)
        decreases |vRandom| - n
      {
        vAddr := ShuffleStep(n, nNodes, random, now, vAddr);
        n := n + 1;
      }
    }

    method ShuffleStep(n: nat, nNodes: nat, random: nat -> nat, now: int, vAddr: seq<Address>)
      returns (next: seq<Address>)
      requires Valid() && n < |vRandom| && |vAddr| < nNodes
      requires GetAddrFrom(Model(), n, nNodes, random, now, vAddr).Some?
      modifies this
      ensures |vRandom| == |old(vRandom)|
      ensures GetAddrFrom(Model(), n + 1, nNodes, random, now, next) ==
              old(GetAddrFrom(Model(), n, nNodes, random, now, vAddr))
    {
      ghost var m := Model();
      GetAddrSwaps(m, n, nNodes, random, now, vAddr);
      var nRndPos := random(n) % (|vRandom| - n) + n;
      SwapRandom(n, nRndPos);
      assert vRandom[n] in mapInfo;
      var ai := mapInfo[vRandom[n]];
      next := if IsTerrible(ai, now) then vAddr else vAddr + [ai.addr];
      GetAddrUnfold(m, Model(), n, nNodes, random, now, vAddr, next, nRndPos,
                    GetAddrFrom(Model(), n + 1, nNodes, random, now, next));
    }
  }

  /** The `k`-th bucket of a search that starts at `r`. */
  function Around(k: nat, r: nat): (b: nat)
    ensures b < NEW_BUCKET_COUNT
  {
    (k + r) % NEW_BUCKET_COUNT
  }

  /** The buckets below `bucket` that hold the entry. */
  ghost function Searched(cfg: Config, s: Service, table: Table, id: int, bucket: nat): set<nat> {
    set b: nat | b < bucket && InBucket(cfg, s, table, id, b)
  }

  lemma {:induction false} SearchedStep(cfg: Config, s: Service, table: Table, id: int, bucket: nat)
    ensures var next := Searched(cfg, s, table, id, bucket + 1);
            |next| == |Searched(cfg, s, table, id, bucket)| + if InBucket(cfg, s, table, id, bucket) then 1 else 0
  {
    var here := Searched(cfg, s, table, id, bucket);
    if InBucket(cfg, s, table, id, bucket) {
      assert Searched(cfg, s, table, id, bucket + 1) == here + {bucket};
    } else {
      assert Searched(cfg, s, table, id, bucket + 1) == here;
    }
  }

  /** The table when the buckets below `bucket` have been searched. */
  ghost function Remaining(cfg: Config, s: Service, table: Table, id: int, bucket: nat): Table {
    map t | t in table && !(table[t] == id && t.bucket < bucket && t == NewSlot(cfg, s, t.bucket)) :: table[t]
  }

  lemma {:induction false} RemainingStep(cfg: Config, s: Service, table: Table, id: int, bucket: nat)
    ensures var slot := NewSlot(cfg, s, bucket);
            var r := Remaining(cfg, s, table, id, bucket);
            && (slot in r && r[slot] == id <==> InBucket(cfg, s, table, id, bucket))
            && Remaining(cfg, s, table, id, bucket + 1) == if slot in r && r[slot] == id then r - {slot} else r
  {
  }

  lemma {:induction false} RemainingNone(cfg: Config, info: Infos, table: Table, id: int)
    requires NewPlaced(cfg, info, table) && id in info
    ensures Remaining(cfg, info[id].addr.service, table, id, NEW_BUCKET_COUNT) ==
            map s | s in table && table[s] != id :: table[s]
  {
    forall t | t in table
      ensures table[t] == id ==> t.bucket < NEW_BUCKET_COUNT && t == NewSlot(cfg, info[id].addr.service, t.bucket)
    {
      assert NewSlotAt(cfg, info, table, t);
    }
  }
}
