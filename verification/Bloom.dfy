/**
  The rolling Bloom filter of src/bloom.cpp.  A position of the filter is two
  bits, one in each of two neighbouring 64-bit words, which together hold the
  number 1, 2 or 3 of the generation that last set it, or 0.

  Module `Bloom` has the bits, the meaning of the filter in terms of the keys
  inserted since the last reset, and the retention theorem.
 */
module Bloom {
  import opened Common

  const ALL_ONES: bv64 := 0xffff_ffff_ffff_ffff

  predicate Bit(x: bv64, b: bv6) {
    (x >> b) & 1 == 1
  }

  /** The number that two words hold at bit `b`. */
  function Number(p1: bv64, p2: bv64, b: bv6): int {
    (if Bit(p1, b) then 1 else 0) + (if Bit(p2, b) then 2 else 0)
  }

  function LowBit(generation: int): bv64 {
    if generation % 2 == 1 then 1 else 0
  }

  function HighBit(generation: int): bv64 {
    if generation >= 2 then 1 else 0
  }

  /** The negation of a bit as a 64-bit number: no bit set or all. */
  function Spread(bit: bv64): bv64 {
    if bit == 0 then 0 else ALL_ONES
  }

  lemma {:induction false} SetBit(x: bv64, b: bv6, v: bv64, c: bv6)
    requires v <= 1
    ensures Bit((x & !((1 as bv64) << b)) | (v << b), c) == if c == b then v == 1 else Bit(x, c)
  {
  }

  /** Both bits of a position are set to those of a generation. */
  method SetPair(p1: bv64, p2: bv64, bit: bv6, generation: int) returns (r1: bv64, r2: bv64)
    requires 1 <= generation <= 3
    ensures forall c: bv6 :: Number(r1, r2, c) == if c == bit then generation else Number(p1, p2, c)
  {
    var low := SetWord(p1, bit, LowBit(generation));
    var high := SetWord(p2, bit, HighBit(generation));
    return low, high;
  }

  method SetWord(x: bv64, bit: bv6, v: bv64) returns (r: bv64)
    requires v <= 1
    ensures forall c: bv6 :: Bit(r, c) == if c == bit then v == 1 else Bit(x, c)
  {
    r := (x & !((1 as bv64) << bit)) | (v << bit);
    forall c: bv6
      ensures Bit(r, c) == if c == bit then v == 1 else Bit(x, c)
    {
      SetBit(x, bit, v, c);
    }
  }

  lemma {:induction false} MaskLow(p1: bv64, p2: bv64, m1: bv64, m2: bv64, b: bv6)
    requires (m1 == 0 || m1 == ALL_ONES) && (m2 == 0 || m2 == ALL_ONES)
    ensures Bit(p1 & ((p1 ^ m1) | (p2 ^ m2)), b) ==
            (Bit(p1, b) && !(Bit(p1, b) == (m1 != 0) && Bit(p2, b) == (m2 != 0)))
  {
  }

  lemma {:induction false} MaskHigh(p1: bv64, p2: bv64, m1: bv64, m2: bv64, b: bv6)
    requires (m1 == 0 || m1 == ALL_ONES) && (m2 == 0 || m2 == ALL_ONES)
    ensures Bit(p2 & ((p1 ^ m1) | (p2 ^ m2)), b) ==
            (Bit(p2, b) && !(Bit(p1, b) == (m1 != 0) && Bit(p2, b) == (m2 != 0)))
  {
  }

  /** The first word of a pair under the keep mask. */
  method MaskFirst(p1: bv64, p2: bv64, m1: bv64, m2: bv64) returns (r: bv64)
    requires (m1 == 0 || m1 == ALL_ONES) && (m2 == 0 || m2 == ALL_ONES)
    ensures forall b: bv6 :: Bit(r, b) == (Bit(p1, b) && !(Bit(p1, b) == (m1 != 0) && Bit(p2, b) == (m2 != 0)))
  {
    r := p1 & ((p1 ^ m1) | (p2 ^ m2));
    forall b: bv6
      ensures Bit(r, b) == (Bit(p1, b) && !(Bit(p1, b) == (m1 != 0) && Bit(p2, b) == (m2 != 0)))
    {
      MaskLow(p1, p2, m1, m2, b);
    }
  }

  /** The second word of a pair under the keep mask. */
  method MaskSecond(p1: bv64, p2: bv64, m1: bv64, m2: bv64) returns (r: bv64)
    requires (m1 == 0 || m1 == ALL_ONES) && (m2 == 0 || m2 == ALL_ONES)
    ensures forall b: bv6 :: Bit(r, b) == (Bit(p2, b) && !(Bit(p1, b) == (m1 != 0) && Bit(p2, b) == (m2 != 0)))
  {
    r := p2 & ((p1 ^ m1) | (p2 ^ m2));
    forall b: bv6
      ensures Bit(r, b) == (Bit(p2, b) && !(Bit(p1, b) == (m1 != 0) && Bit(p2, b) == (m2 != 0)))
    {
      MaskHigh(p1, p2, m1, m2, b);
    }
  }

  /** The masked wipe clears exactly the positions of one generation. */
  method WipePair(p1: bv64, p2: bv64, generation: int) returns (r1: bv64, r2: bv64)
    requires 1 <= generation <= 3
    ensures forall b: bv6 :: Number(r1, r2, b) ==
              if Number(p1, p2, b) == generation then 0 else Number(p1, p2, b)
  {
    var m1, m2 := Spread(LowBit(generation)), Spread(HighBit(generation));
    var w1 := MaskFirst(p1, p2, m1, m2);
    var w2 := MaskSecond(p1, p2, m1, m2);
    return w1, w2;
  }

  method IsSet(p1: bv64, p2: bv64, bit: bv6) returns (r: bool)
    ensures r == (Number(p1, p2, bit) != 0)
  {
    r := ((p1 | p2) >> bit) & 1 != 0;
  }

  // ----- the meaning of the filter

  type Key = seq<int>

  /** The seeded hash functions of a filter and its number of words. */
  datatype Config = Config(hash: (nat, Key) -> bv32, nHashFuncs: nat, words: nat, perGeneration: nat) {
    predicate Valid() {
      words > 0 && words % 2 == 0
    }
  }

  /** Bit `bit` of the words `2 * pair` and `2 * pair + 1`. */
  datatype Cell = Cell(pair: nat, bit: bv6)

  function BitOf(h: bv32): bv6 {
    (h & 0x3F) as bv6
  }

  function PosOf(h: bv32, words: nat): (p: nat)
    requires words > 0
    ensures p < words
  {
    (h >> 6) as int % words
  }

  function CellOf(cfg: Config, n: nat, key: Key): (c: Cell)
    requires cfg.Valid()
    ensures c.pair < cfg.words / 2 && 2 * c.pair <= PosOf(cfg.hash(n, key), cfg.words) <= 2 * c.pair + 1
  {
    var h := cfg.hash(n, key);
    Cell(PosOf(h, cfg.words) / 2, BitOf(h))
  }

  function HashOf(q: bv32, b: bv6): bv32 {
    (q << 6) | (b as bv32)
  }

  lemma {:induction false} HashOfSplits(q: bv32, b: bv6, g: bv32)
    requires q < 0x400_0000
    ensures HashOf(q, b) >> 6 == q && BitOf(HashOf(q, b)) == b
    ensures g >> 6 == q && BitOf(g) == b ==> g == HashOf(q, b)
  {
  }

  /** A hash gives a bit and a word independently of each other: its low 6 bits are
      the bit, the other 26 choose the word, and every choice has its hash. */
  lemma {:induction false} HashSplits(q: bv32, b: bv6, words: nat)
    requires q < 0x400_0000 && words > 0
    ensures BitOf(HashOf(q, b)) == b && PosOf(HashOf(q, b), words) == q as int % words
  {
    HashOfSplits(q, b, 0);
  }

  predicate Touches(cfg: Config, key: Key, c: Cell, n: nat)
    requires cfg.Valid()
  {
    exists i: nat :: i < n && CellOf(cfg, i, key) == c
  }

  /** How often the generation has changed, and the entries in the present one,
      after `n` inserts. */
  datatype Clock = Clock(epoch: nat, entries: nat)

  function ClockAt(perGeneration: nat, n: nat): Clock {
    if n == 0 then Clock(0, 0)
    else
      var c := ClockAt(perGeneration, n - 1);
      if c.entries == perGeneration then Clock(c.epoch + 1, 1) else Clock(c.epoch, c.entries + 1)
  }

  /** The epoch of the last of the first `n` keys that set the cell, or -1. */
  ghost function LastTouch(cfg: Config, keys: seq<Key>, n: nat, c: Cell): int
    requires cfg.Valid() && n <= |keys|
  {
    if n == 0 then -1
    else if Touches(cfg, keys[n - 1], c, cfg.nHashFuncs) then ClockAt(cfg.perGeneration, n).epoch
    else LastTouch(cfg, keys, n - 1, c)
  }

  /** The number 1, 2 or 3 of the generation of an epoch. */
  function Generation(epoch: nat): (g: int)
    ensures 1 <= g <= 3
  {
    if epoch == 0 then 1 else if Generation(epoch - 1) == 3 then 1 else Generation(epoch - 1) + 1
  }

  /** The numbers go round. */
  lemma {:induction false} GenerationIs(epoch: nat)
    ensures Generation(epoch) == epoch % 3 + 1
  {
    if epoch > 0 {
      GenerationIs(epoch - 1);
    }
  }

  /** What a cell should hold in epoch `now` if it was last set in epoch `t`:
      the number of that generation, or nothing if it is three or more ago. */
  function Label(t: int, now: int): int {
    if t < 0 || t < now - 2 then 0 else Generation(t)
  }

  /** The filter as keys tell it: a key is in it exactly if each of its cells
      was set in the present or one of the two previous generations. */
  ghost predicate Member(cfg: Config, keys: seq<Key>, key: Key)
    requires cfg.Valid()
  {
    forall i: nat | i < cfg.nHashFuncs ::
      Label(LastTouch(cfg, keys, |keys|, CellOf(cfg, i, key)), ClockAt(cfg.perGeneration, |keys|).epoch) != 0
  }

  /** The keys of `e` full generations. */
  function Full(e: nat, perGeneration: nat): nat {
    if e == 0 then 0 else Full(e - 1, perGeneration) + perGeneration
  }

  lemma {:induction false} ClockEntries(perGeneration: nat, n: nat)
    requires perGeneration > 0 && n > 0
    ensures 1 <= ClockAt(perGeneration, n).entries <= perGeneration
  {
    if n > 1 {
      ClockEntries(perGeneration, n - 1);
    }
  }

  lemma {:induction false} ClockCounts(perGeneration: nat, n: nat)
    requires perGeneration > 0
    ensures n == Full(ClockAt(perGeneration, n).epoch, perGeneration) + ClockAt(perGeneration, n).entries
  {
    if n > 0 {
      ClockCounts(perGeneration, n - 1);
    }
  }

  lemma {:induction false} ClockMonotone(perGeneration: nat, m: nat, n: nat)
    requires m <= n
    ensures ClockAt(perGeneration, m).epoch <= ClockAt(perGeneration, n).epoch
  {
    if m < n {
      ClockMonotone(perGeneration, m, n - 1);
    }
  }

  lemma {:induction false} LastTouchBounds(cfg: Config, keys: seq<Key>, n: nat, c: Cell)
    requires cfg.Valid() && n <= |keys|
    ensures -1 <= LastTouch(cfg, keys, n, c) <= ClockAt(cfg.perGeneration, n).epoch
  {
    if n > 0 {
      LastTouchBounds(cfg, keys, n - 1, c);
    }
  }

  /** A key's cells were last set no earlier than by the key itself. */
  lemma {:induction false} TouchedSince(cfg: Config, keys: seq<Key>, n: nat, i: nat, c: Cell)
    requires cfg.Valid() && i < n <= |keys| && Touches(cfg, keys[i], c, cfg.nHashFuncs)
    ensures LastTouch(cfg, keys, n, c) >= ClockAt(cfg.perGeneration, i + 1).epoch
  {
    if Touches(cfg, keys[n - 1], c, cfg.nHashFuncs) {
      ClockMonotone(cfg.perGeneration, i + 1, n);
    } else {
      TouchedSince(cfg, keys, n - 1, i, c);
    }
  }

  /** The last two generations' worth of keys were inserted at most two epochs
      ago. */
  lemma {:induction false} RecentEpoch(perGeneration: nat, n: nat, i: nat)
    requires n - 2 * perGeneration <= i < n
    ensures ClockAt(perGeneration, i + 1).epoch >= ClockAt(perGeneration, n).epoch - 2
  {
    if perGeneration > 0 {
      ClockCounts(perGeneration, n);
      ClockCounts(perGeneration, i + 1);
      ClockEntries(perGeneration, n);
      ClockEntries(perGeneration, i + 1);
      var e, f := ClockAt(perGeneration, n).epoch, ClockAt(perGeneration, i + 1).epoch;
      if f + 3 <= e {
        FullDistance(f, e, perGeneration);
        assert false;
      }
    }
  }

  lemma {:induction false} FullDistance(f: nat, e: nat, perGeneration: nat)
    requires f + 3 <= e
    ensures Full(e, perGeneration) >= Full(f, perGeneration) + 3 * perGeneration
  {
    if f + 3 < e {
      FullDistance(f, e - 1, perGeneration);
    } else {
      assert Full(f + 2, perGeneration) == Full(f + 1, perGeneration) + perGeneration;
    }
  }

  /** Each of the most recent `2 * perGeneration` keys is in the filter. */
  lemma {:induction false} RecentKeysStay(cfg: Config, keys: seq<Key>, i: nat)
    requires cfg.Valid() && |keys| - 2 * cfg.perGeneration <= i < |keys|
    ensures Member(cfg, keys, keys[i])
  {
    forall j: nat | j < cfg.nHashFuncs
      ensures Label(LastTouch(cfg, keys, |keys|, CellOf(cfg, j, keys[i])),
                    ClockAt(cfg.perGeneration, |keys|).epoch) != 0
    {
      var c := CellOf(cfg, j, keys[i]);
      assert Touches(cfg, keys[i], c, cfg.nHashFuncs);
      TouchedSince(cfg, keys, |keys|, i, c);
      RecentEpoch(cfg.perGeneration, |keys|, i);
    }
  }

  // ----- exactly which keys are in the filter

  /** The generation changes after every `perGeneration` keys. */
  lemma {:induction false} EpochOf(perGeneration: nat, n: nat)
    requires perGeneration > 0
    ensures ClockAt(perGeneration, n + 1).epoch == n / perGeneration
  {
    var c := ClockAt(perGeneration, n + 1);
    ClockCounts(perGeneration, n + 1);
    ClockEntries(perGeneration, n + 1);
    FullIs(c.epoch, perGeneration);
    QuotientIs(n, perGeneration, c.epoch, c.entries - 1);
  }

  lemma {:induction false} FullIs(e: nat, perGeneration: nat)
    ensures Full(e, perGeneration) == e * perGeneration
  {
    if e > 0 {
      FullIs(e - 1, perGeneration);
      assert e * perGeneration == (e - 1) * perGeneration + perGeneration;
    }
  }

  lemma {:induction false} QuotientIs(n: nat, d: nat, q: nat, r: nat)
    requires n == q * d + r && r < d
    ensures n / d == q
  {
    var k := n / d;
    if k < q {
      MultipleBelow(k, q, d);
      assert false;
    } else if q < k {
      MultipleBelow(q, k, d);
      assert false;
    }
  }

  lemma {:induction false} MultipleBelow(a: nat, b: nat, d: nat)
    requires a < b
    ensures a * d + d <= b * d
  {
    if a + 1 < b {
      MultipleBelow(a, b - 1, d);
    }
    assert b * d == (b - 1) * d + d;
  }

  /** Of `n` keys, key `i` is of the last generation or one of the two before it. */
  predicate Remembered(perGeneration: nat, n: nat, i: nat)
    requires perGeneration > 0 && i < n
  {
    i / perGeneration + 2 >= (n - 1) / perGeneration
  }

  /** One of the hash functions leads from a remembered key to the cell. */
  ghost predicate SetByOne(cfg: Config, keys: seq<Key>, c: Cell)
    requires cfg.Valid() && cfg.perGeneration > 0
  {
    exists i: nat, j: nat :: i < |keys| && j < cfg.nHashFuncs && CellOf(cfg, j, keys[i]) == c &&
                             Remembered(cfg.perGeneration, |keys|, i)
  }

  lemma {:induction false} LastTouchBy(cfg: Config, keys: seq<Key>, n: nat, c: Cell) returns (i: nat)
    requires cfg.Valid() && n <= |keys| && LastTouch(cfg, keys, n, c) >= 0
    ensures i < n && Touches(cfg, keys[i], c, cfg.nHashFuncs)
    ensures LastTouch(cfg, keys, n, c) == ClockAt(cfg.perGeneration, i + 1).epoch
  {
    if Touches(cfg, keys[n - 1], c, cfg.nHashFuncs) {
      i := n - 1;
    } else {
      i := LastTouchBy(cfg, keys, n - 1, c);
    }
  }

  lemma {:induction false} SetIff(cfg: Config, keys: seq<Key>, c: Cell)
    requires cfg.Valid() && cfg.perGeneration > 0
    ensures Label(LastTouch(cfg, keys, |keys|, c), ClockAt(cfg.perGeneration, |keys|).epoch) != 0 <==>
            SetByOne(cfg, keys, c)
  {
    var per, n, t := cfg.perGeneration, |keys|, LastTouch(cfg, keys, |keys|, c);
    if n > 0 {
      EpochOf(per, n - 1);
    }
    if t >= 0 {
      var i := LastTouchBy(cfg, keys, n, c);
      EpochOf(per, i);
      var j: nat :| j < cfg.nHashFuncs && CellOf(cfg, j, keys[i]) == c;
      assert t >= ClockAt(per, n).epoch - 2 ==> Remembered(per, n, i);
    }
    if SetByOne(cfg, keys, c) {
      var i: nat, j: nat :| i < n && j < cfg.nHashFuncs && CellOf(cfg, j, keys[i]) == c && Remembered(per, n, i);
      assert Touches(cfg, keys[i], c, cfg.nHashFuncs);
      TouchedSince(cfg, keys, n, i, c);
      EpochOf(per, i);
    }
  }

  /** A key is in the filter if and only if each of its cells was set by a key of
      the last generation or of one of the two before it. */
  lemma {:induction false} MemberIff(cfg: Config, keys: seq<Key>, key: Key)
    requires cfg.Valid() && cfg.perGeneration > 0
    ensures Member(cfg, keys, key) <==>
            forall j: nat | j < cfg.nHashFuncs :: SetByOne(cfg, keys, CellOf(cfg, j, key))
  {
    forall j: nat | j < cfg.nHashFuncs
      ensures Label(LastTouch(cfg, keys, |keys|, CellOf(cfg, j, key)),
                    ClockAt(cfg.perGeneration, |keys|).epoch) != 0 <==>
              SetByOne(cfg, keys, CellOf(cfg, j, key))
    {
      SetIff(cfg, keys, CellOf(cfg, j, key));
    }
  }

  /** A new filter, or one just reset, holds no key. */
  lemma {:induction false} NewFilterEmpty(cfg: Config, key: Key)
    requires cfg.Valid() && cfg.nHashFuncs >= 1
    ensures !Member(cfg, [], key)
  {
    assert Label(LastTouch(cfg, [], 0, CellOf(cfg, 0, key)), ClockAt(cfg.perGeneration, 0).epoch) == 0;
  }

  /** Keys of earlier generations leave no trace: a key whose first cell none of the
      remembered keys set is not in the filter. */
  lemma {:induction false} Forgotten(cfg: Config, keys: seq<Key>, key: Key)
    requires cfg.Valid() && cfg.perGeneration > 0 && cfg.nHashFuncs >= 1
    requires forall i: nat, j: nat | i < |keys| && Remembered(cfg.perGeneration, |keys|, i) && j < cfg.nHashFuncs ::
               CellOf(cfg, j, keys[i]) != CellOf(cfg, 0, key)
    ensures !Member(cfg, keys, key)
  {
    MemberIff(cfg, keys, key);
    assert !SetByOne(cfg, keys, CellOf(cfg, 0, key));
  }

  // ----- the constructor's numbers, in 32 bits

  function PerGeneration(nElements: nat): nat {
    (nElements + 1) % TWO_32 / 2
  }

  function MaxElements(nElements: nat): nat {
    3 * PerGeneration(nElements) % TWO_32
  }

  /** `factor` is -1 / log(1 - fpRate^(1 / nHashFuncs)), a positive number. */
  function FilterBits(nElements: nat, nHashFuncs: nat, factor: real): int {
    BitsFor(MaxElements(nElements), nHashFuncs, factor)
  }

  function BitsFor(nMaxElements: nat, nHashFuncs: nat, factor: real): int {
    Ceiling((nHashFuncs * nMaxElements) as real * factor)
  }

  function Ceiling(r: real): int {
    -((-r).Floor)
  }

  function Words(nFilterBits: int): (w: nat)
    ensures w % 2 == 0
  {
    (nFilterBits + 63) % TWO_32 / 64 * 2
  }

  function ConfigFor(nElements: nat, nHashFuncs: nat, factor: real, hash: (nat, Key) -> bv32): Config {
    Config(hash, nHashFuncs, Words(FilterBits(nElements, nHashFuncs, factor)), PerGeneration(nElements))
  }

  lemma {:induction false} PerGenerationIff(nElements: nat)
    requires nElements < TWO_32
    ensures 2 * PerGeneration(nElements) >= nElements <==> nElements != TWO_32 - 1
    ensures PerGeneration(nElements) == 0 <==> nElements == 0 || nElements == TWO_32 - 1
    ensures MaxElements(nElements) == 0 <==> PerGeneration(nElements) == 0
  {
    if nElements < TWO_32 - 1 {
      assert (nElements + 1) % TWO_32 == nElements + 1;
    }
    var p := PerGeneration(nElements);
    assert 3 * p < 2 * TWO_32 && 3 * p != TWO_32;
  }

  lemma {:induction false} RoundUp(r: real)
    requires r >= 0.0
    ensures Ceiling(r) >= 0 && (Ceiling(r) == 0 <==> r == 0.0)
  {
  }

  lemma {:induction false} PositiveProduct(x: real, y: real)
    requires y > 0.0 && x >= 0.0
    ensures x * y >= 0.0 && (x * y == 0.0 <==> x == 0.0)
  {
  }

  /** A filter has no bits if and only if its generations have no room: for no
      elements, and for 2^32 - 1, where `nElements + 1` wraps. */
  lemma {:induction false} NoBitsIff(nElements: nat, nHashFuncs: nat, factor: real)
    requires nElements < TWO_32 && nHashFuncs >= 1 && factor > 0.0
    ensures FilterBits(nElements, nHashFuncs, factor) >= 0
    ensures FilterBits(nElements, nHashFuncs, factor) == 0 <==> nElements == 0 || nElements == TWO_32 - 1
  {
    PerGenerationIff(nElements);
    var n := nHashFuncs * MaxElements(nElements);
    assert n >= 0 && (n == 0 <==> MaxElements(nElements) == 0);
    PositiveProduct(n as real, factor);
    RoundUp(n as real * factor);
  }

  /** The array is empty in these two cases, and where rounding up wraps. */
  lemma {:induction false} EmptyIff(nElements: nat, nHashFuncs: nat, factor: real)
    requires nElements < TWO_32 && nHashFuncs >= 1 && factor > 0.0
    requires FilterBits(nElements, nHashFuncs, factor) < TWO_32
    ensures Words(FilterBits(nElements, nHashFuncs, factor)) == 0 <==>
            nElements == 0 || nElements == TWO_32 - 1 || FilterBits(nElements, nHashFuncs, factor) > TWO_32 - 64
  {
    NoBitsIff(nElements, nHashFuncs, factor);
    NoWordsIff(FilterBits(nElements, nHashFuncs, factor));
  }

  lemma {:induction false} NoWordsIff(bits: nat)
    requires bits < TWO_32
    ensures Words(bits) == 0 <==> bits == 0 || bits > TWO_32 - 64
  {
  }

  /** Every filter that has an array holds at least its last `nElements` keys. */
  lemma {:induction false} ElementsStay(
    nElements: nat, nHashFuncs: nat, factor: real, hash: (nat, Key) -> bv32, keys: seq<Key>, i: nat)
    requires nElements < TWO_32 && nHashFuncs >= 1 && factor > 0.0
    requires FilterBits(nElements, nHashFuncs, factor) < TWO_32
    requires ConfigFor(nElements, nHashFuncs, factor, hash).Valid() && |keys| - nElements <= i < |keys|
    ensures Member(ConfigFor(nElements, nHashFuncs, factor, hash), keys, keys[i])
  {
    EmptyIff(nElements, nHashFuncs, factor);
    PerGenerationIff(nElements);
    RecentKeysStay(ConfigFor(nElements, nHashFuncs, factor, hash), keys, i);
  }
}
