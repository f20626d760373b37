/**
  The cuckoo cache over a table and two flag vectors, one of them packed eight
  to a byte (src/cuckoocache.h).  Each method is proved against the function of
  the same name in module `Cuckoo`.
 */
module CuckooCache {
  import opened Common
  import opened Cuckoo

  // ----- flags packed into bytes

  /** `1 << k`. */
  function BitMask(k: nat): bv8
    requires k < 8
  {
    [1, 2, 4, 8, 16, 32, 64, 128][k]
  }

  predicate BitOf(x: bv8, k: nat)
    requires k < 8
  {
    BitMask(k) & x != 0
  }

  predicate Flag(mem: seq<bv8>, s: nat)
    requires s < 8 * |mem|
  {
    BitOf(mem[s / 8], s % 8)
  }

  method SetInByte(x: bv8, j: nat) returns (r: bv8)
    requires j < 8
    ensures forall k: nat | k < 8 :: BitOf(r, k) == (k == j || BitOf(x, k))
  {
    r := x | BitMask(j);
  }

  method ClearInByte(x: bv8, j: nat) returns (r: bv8)
    requires j < 8
    ensures forall k: nat | k < 8 :: BitOf(r, k) == (k != j && BitOf(x, k))
  {
    r := x & !BitMask(j);
  }

  /** The bytes allocated for `size` flags, in 32 bits. */
  function Bytes(size: nat): nat {
    (size + 7) % TWO_32 / 8
  }

  lemma {:induction false} BytesFitIff(size: nat)
    requires size < TWO_32
    ensures size <= 8 * Bytes(size) <==> size <= TWO_32 - 8
  {
    if size > TWO_32 - 8 {
      assert (size + 7) % TWO_32 == size + 7 - TWO_32;
    }
  }

  /** Collection flags: a set flag marks a slot that may be overwritten. */
  class PackedFlags {
    const mem: array<bv8>

    constructor (size: nat)
      requires size < TWO_32
      ensures fresh(mem) && mem.Length == Bytes(size)
      ensures forall s: nat | s < 8 * mem.Length :: Flag(mem[..], s)
    {
      var bytes := (size + 7) % TWO_32 / 8;
      var m := new bv8[bytes];
      for i := 0 to bytes
        invariant forall j | 0 <= j < i :: m[j] == 0xFF
      {
        m[i] := 0xFF;
      }
      mem := m;
      new;
      forall s: nat | s < 8 * mem.Length
        ensures Flag(mem[..], s)
      {
        FullByte(s % 8);
      }
    }

    method BitSet(s: nat)
      requires s < 8 * mem.Length
      modifies mem
      ensures forall t: nat | t < 8 * mem.Length :: Flag(mem[..], t) == (t == s || Flag(old(mem[..]), t))
    {
      mem[s / 8] := SetInByte(mem[s / 8], s % 8);
    }

    method BitUnset(s: nat)
      requires s < 8 * mem.Length
      modifies mem
      ensures forall t: nat | t < 8 * mem.Length :: Flag(mem[..], t) == (t != s && Flag(old(mem[..]), t))
    {
      mem[s / 8] := ClearInByte(mem[s / 8], s % 8);
    }

    method BitIsSet(s: nat) returns (r: bool)
      requires s < 8 * mem.Length
      ensures r == Flag(mem[..], s)
    {
      r := BitMask(s % 8) & mem[s / 8] != 0;
    }
  }

  lemma {:induction false} FullByte(k: nat)
    requires k < 8
    ensures BitOf(0xFF, k)
  {
  }

  // ----- the cache

  ghost function SlotsOf(table: seq<Element>, mem: seq<bv8>, epoch: seq<bool>): (s: seq<Slot>)
    requires |epoch| == |table| && |table| <= 8 * |mem|
    ensures |s| == |table| && forall i | 0 <= i < |s| :: s[i] == Slot(table[i], !Flag(mem, i), epoch[i])
  {
    seq(|table|, i requires 0 <= i < |table| => Slot(table[i], !Flag(mem, i), epoch[i]))
  }

  class Cache {
    const cfg: Config
    const table: array<Element>
    const flags: PackedFlags
    const epochFlags: array<bool>
    var counter: nat

    ghost predicate Valid()
      reads this
    {
      && cfg.Valid() && table.Length == cfg.size == epochFlags.Length && cfg.size <= 8 * flags.mem.Length
      && InRange(cfg, cfg.size)
      && table as object != epochFlags && table as object != flags.mem && epochFlags as object != flags.mem
    }

    ghost function Slots(): (s: seq<Slot>)
      requires Valid()
      reads this, table, flags.mem, epochFlags
      ensures |s| == cfg.size
    {
      SlotsOf(table[..], flags.mem[..], epochFlags[..])
    }

    ghost function Model(): Cuckoo.Cache
      requires Valid()
      reads this, table, flags.mem, epochFlags
    {
      Cuckoo.Cache(Slots(), counter)
    }

    /** The table is usable exactly if there is a collection flag for each slot. */
    constructor Setup(hash: (nat, Element) -> nat, newSize: nat, depthLimit: nat, initial: Element)
      requires newSize < TWO_32 && forall k: nat, e: Element :: hash(k, e) < TWO_32
      ensures cfg == ConfigFor(hash, newSize, depthLimit) && fresh(table) && fresh(flags.mem) && fresh(epochFlags)
      ensures Valid() <==> newSize <= TWO_32 - 8
      ensures Valid() ==> Model() == Cuckoo.Setup(cfg, initial)
    {
      var size := Max(2, newSize);
      cfg := Config(hash, size, Max(1, 45 * size % TWO_32 / 100), depthLimit);
      table := new Element[size](_ => initial);
      flags := new PackedFlags(size);
      epochFlags := new bool[size](_ => false);
      counter := Max(1, 45 * size % TWO_32 / 100);
      new;
      AllInRange(cfg);
      BytesFitIff(cfg.size);
      if Valid() {
        assert forall i | 0 <= i < cfg.size :: Slots()[i] == Slot(initial, false, false);
      }
    }

    /** An element enters a location, to be kept. */
    method Fill(l: nat, e: Element, recent: bool)
      requires Valid() && l < cfg.size
      modifies table, flags.mem, epochFlags
      ensures Slots() == old(Slots())[l := Slot(e, true, recent)]
    {
      table[l] := e;
      flags.BitUnset(l);
      epochFlags[l] := recent;
    }

    method AllowErase(l: nat)
      requires Valid() && l < cfg.size
      modifies flags.mem
      ensures Slots() == old(Slots())[l := old(Slots())[l].(live := false)]
    {
      flags.BitSet(l);
    }

    method FindSame(e: Element) returns (k: nat)
      requires Valid()
      ensures k == Cuckoo.FindSame(cfg, Slots(), e, 0)
    {
      k := 0;
      while k < WAYS && table[Loc(cfg, e, k)] != e
        invariant k <= WAYS && Cuckoo.FindSame(cfg, Slots(), e, 0) == Cuckoo.FindSame(cfg, Slots(), e, k)
        decreases WAYS - k
      {
        k := k + 1;
      }
    }

    method FindFree(e: Element) returns (k: nat)
      requires Valid()
      ensures k == Cuckoo.FindFree(cfg, Slots(), e, 0)
    {
      k := 0;
      while k < WAYS
        invariant k <= WAYS && Cuckoo.FindFree(cfg, Slots(), e, 0) == Cuckoo.FindFree(cfg, Slots(), e, k)
      {
        var l := Loc(cfg, e, k);
        var free := flags.BitIsSet(l);
        if free {
          return k;
        }
        k := k + 1;
      }
    }

    /** Counts the kept entries of the current epoch. */
    method CountRecent() returns (n: nat)
      requires Valid()
      ensures n == Recent(Slots(), cfg.size)
    {
      n := 0;
      for i := 0 to cfg.size
        invariant n == Recent(Slots(), i)
      {
        var discardable := flags.BitIsSet(i);
        n := n + if epochFlags[i] && !discardable then 1 else 0;
      }
    }

    method AgeAll()
      requires Valid()
      modifies flags.mem, epochFlags
      ensures Slots() == Age(old(Slots()))
    {
      ghost var before := Slots();
      for i := 0 to cfg.size
        invariant forall j | 0 <= j < i ::
                    Slots()[j] == Slot(before[j].element, before[j].live && before[j].recent, false)
        invariant forall j | i <= j < cfg.size :: Slots()[j] == before[j]
      {
        ghost var sofar := Slots();
        if epochFlags[i] {
          epochFlags[i] := false;
        } else {
          AllowErase(i);
        }
        assert forall j | 0 <= j < cfg.size && j != i :: Slots()[j] == sofar[j];
      }
    }

    method EpochCheck()
      requires Valid()
      modifies this`counter, flags.mem, epochFlags
      ensures Model() == Cuckoo.EpochCheck(cfg, old(Model()))
    {
      if counter != 0 {
        counter := counter - 1;
        return;
      }
      var used := CountRecent();
      if used >= cfg.epochSize {
        AgeAll();
        counter := cfg.epochSize;
      } else {
        counter := Max(1, Max(cfg.epochSize / 16, cfg.epochSize - used));
      }
    }

    method Insert(e: Element) returns (ghost dropped: Option<Element>)
      requires Valid()
      modifies this`counter, table, flags.mem, epochFlags
      ensures (Model(), dropped) == Cuckoo.Insert(cfg, old(Model()), e)
    {
      EpochCheck();
      var k := FindSame(e);
      if k < WAYS {
        Fill(Loc(cfg, e, k), e, true);
        return None;
      }
      dropped := Displace(e);
    }

    /** The loop of `insert`. */
    method Displace(e0: Element) returns (ghost dropped: Option<Element>)
      requires Valid()
      modifies table, flags.mem, epochFlags
      ensures (Slots(), dropped) == Place(cfg, old(Slots()), e0, true, -1, cfg.depthLimit)
    {
      var e, lastLoc, lastEpoch := e0, -1, true;
      var depth := 0;
      ghost var rest: nat := cfg.depthLimit;
      ghost var goal := Place(cfg, Slots(), e, lastEpoch, lastLoc, rest);
      while depth < cfg.depthLimit
        invariant 0 <= depth <= cfg.depthLimit && rest == cfg.depthLimit - depth
        invariant goal == Place(cfg, Slots(), e, lastEpoch, lastLoc, rest)
      {
        var placed;
        placed, e, lastEpoch, lastLoc, rest := DisplaceOnce(e, lastEpoch, lastLoc, rest, goal);
        if placed {
          return None;
        }
        depth := depth + 1;
      }
      return Some(e);
    }

    /** One round: fill a free location or change places with a kept element. */
    method DisplaceOnce(
      e: Element, recent: bool, lastLoc: int, ghost depth: nat, ghost goal: (seq<Slot>, Option<Element>))
      returns (placed: bool, evicted: Element, epoch: bool, loc: int, ghost left: nat)
      requires Valid() && depth > 0 && goal == Place(cfg, Slots(), e, recent, lastLoc, depth)
      modifies table, flags.mem, epochFlags
      ensures placed ==> goal == (Slots(), None)
      ensures left == depth - 1 && (!placed ==> goal == Place(cfg, Slots(), evicted, epoch, loc, left))
    {
      evicted, epoch, loc, left := e, recent, lastLoc, depth - 1;
      var k := FindFree(e);
      if k < WAYS {
        Fill(Loc(cfg, e, k), e, recent);
        placed := true;
      } else {
        loc := Loc(cfg, e, NextWay(cfg, e, lastLoc));
        evicted, epoch := table[loc], epochFlags[loc];
        ghost var s := Slots();
        SwapIn(loc, e, recent);
        placed := false;
        PlaceUnfold(cfg, s, Slots(), e, recent, lastLoc, depth, loc, evicted, epoch, left);
      }
    }

    /** Replaces a kept element; its collection flag stays. */
    method SwapIn(l: nat, e: Element, recent: bool)
      requires Valid() && l < cfg.size && Slots()[l].live
      modifies table, epochFlags
      ensures Slots() == old(Slots())[l := Slot(e, true, recent)]
    {
      table[l] := e;
      epochFlags[l] := recent;
    }

    method Contains(e: Element, erase: bool) returns (found: bool)
      requires Valid()
      modifies flags.mem
      ensures (Model(), found) == Cuckoo.Contains(cfg, old(Model()), e, erase)
    {
      var k := FindSame(e);
      if k == WAYS {
        return false;
      }
      if erase {
        AllowErase(Loc(cfg, e, k));
      }
      return true;
    }
  }

  lemma {:induction false} PlaceUnfold(
    cfg: Config, s: seq<Slot>, s': seq<Slot>, e: Element, recent: bool, lastLoc: int, depth: nat, l: nat,
    evicted: Element, epoch: bool, left: nat)
    requires InRange(cfg, |s|) && depth == left + 1 && Cuckoo.FindFree(cfg, s, e, 0) == WAYS
    requires l == Loc(cfg, e, NextWay(cfg, e, lastLoc)) && s' == s[l := Slot(e, true, recent)]
    requires evicted == s[l].element && epoch == s[l].recent
    ensures Place(cfg, s, e, recent, lastLoc, depth) == Place(cfg, s', evicted, epoch, l, left)
  {
  }
}
