/**
  CRollingBloomFilter as an object over an array of 64-bit words
  (src/bloom.cpp).  `contains` is proved to answer exactly what the keys
  inserted since the last reset say.
 */
module BloomFilter {
  import opened Common
  import opened Bloom

  ghost function CellNumber(d: seq<bv64>, c: Cell): int
    requires |d| % 2 == 0 && c.pair < |d| / 2
  {
    Number(d[2 * c.pair], d[2 * c.pair + 1], c.bit)
  }

  /** Clears every position that holds the number of a generation. */
  method Wipe(data: array<bv64>, generation: int)
    requires data.Length % 2 == 0 && 1 <= generation <= 3
    modifies data
    ensures forall c: Cell | c.pair < data.Length / 2 ::
              CellNumber(data[..], c) ==
              if CellNumber(old(data[..]), c) == generation then 0 else CellNumber(old(data[..]), c)
  {
    ghost var before := data[..];
    var p := 0;
    ghost var k := 0;
    while p < data.Length
      invariant 0 <= p <= data.Length && p == 2 * k
      invariant forall i | p <= i < data.Length :: data[i] == before[i]
      invariant forall c: Cell | c.pair < k :: WipedAt(before, data[..], generation, c)
    {
      ghost var sofar := data[..];
      var x, y := WipePair(data[p], data[p + 1], generation);
      WipeNext(before, sofar, k, generation, x, y);
      data[p], data[p + 1] := x, y;
      assert data[..] == sofar[p := x][p + 1 := y];
      p := p + 2;
      k := k + 1;
    }
    forall c: Cell | c.pair < data.Length / 2
      ensures CellNumber(data[..], c) == if CellNumber(before, c) == generation then 0 else CellNumber(before, c)
    {
      assert WipedAt(before, data[..], generation, c);
    }
  }

  lemma {:induction false} WipeNext(before: seq<bv64>, sofar: seq<bv64>, k: nat, generation: int, x: bv64, y: bv64)
    requires |before| == |sofar| && |before| % 2 == 0 && 2 * k + 1 < |before|
    requires forall c: Cell | c.pair < k :: WipedAt(before, sofar, generation, c)
    requires forall b: bv6 :: Number(x, y, b) ==
               if Number(before[2 * k], before[2 * k + 1], b) == generation then 0
               else Number(before[2 * k], before[2 * k + 1], b)
    ensures forall c: Cell | c.pair < k + 1 :: WipedAt(before, sofar[2 * k := x][2 * k + 1 := y], generation, c)
  {
    var now := sofar[2 * k := x][2 * k + 1 := y];
    forall c: Cell | c.pair < k + 1
      ensures WipedAt(before, now, generation, c)
    {
      if c.pair < k {
        assert WipedAt(before, sofar, generation, c);
        assert now[2 * c.pair] == sofar[2 * c.pair] && now[2 * c.pair + 1] == sofar[2 * c.pair + 1];
      } else {
        assert now[2 * c.pair] == x && now[2 * c.pair + 1] == y;
      }
    }
  }

  ghost predicate WipedAt(before: seq<bv64>, after: seq<bv64>, generation: int, c: Cell)
    requires |before| == |after| && |before| % 2 == 0
  {
    c.pair < |before| / 2 &&
    CellNumber(after, c) == if CellNumber(before, c) == generation then 0 else CellNumber(before, c)
  }

  /** Sets every position of a key to a generation. */
  method Mark(data: array<bv64>, cfg: Config, key: Key, generation: int)
    requires cfg.Valid() && data.Length == cfg.words && 1 <= generation <= 3
    modifies data
    ensures forall c: Cell | c.pair < data.Length / 2 ::
              CellNumber(data[..], c) ==
              if Touches(cfg, key, c, cfg.nHashFuncs) then generation else CellNumber(old(data[..]), c)
  {
    ghost var before := data[..];
    for n := 0 to cfg.nHashFuncs
      invariant forall c: Cell | c.pair < data.Length / 2 ::
                  CellNumber(data[..], c) == if Touches(cfg, key, c, n) then generation else CellNumber(before, c)
    {
      ghost var sofar := data[..];
      MarkOne(data, cfg, key, n, generation);
      MarkNext(cfg, key, n, generation, before, sofar, data[..]);
    }
  }

  /** Sets the position of one hash function. */
  method MarkOne(data: array<bv64>, cfg: Config, key: Key, n: nat, generation: int)
    requires cfg.Valid() && data.Length == cfg.words && 1 <= generation <= 3
    modifies data
    ensures forall c: Cell | c.pair < data.Length / 2 ::
              CellNumber(data[..], c) == if c == CellOf(cfg, n, key) then generation else CellNumber(old(data[..]), c)
  {
    var h := cfg.hash(n, key);
    var pos := PosOf(h, data.Length);
    var low := pos - pos % 2;
    assert CellOf(cfg, n, key) == Cell(low / 2, BitOf(h));
    SetCell(data, low, BitOf(h), generation);
  }

  lemma {:induction false} MarkNext(
    cfg: Config, key: Key, n: nat, generation: int, before: seq<bv64>, sofar: seq<bv64>, now: seq<bv64>)
    requires cfg.Valid() && |before| == |sofar| == |now| == cfg.words
    requires forall c: Cell | c.pair < cfg.words / 2 ::
               CellNumber(sofar, c) == if Touches(cfg, key, c, n) then generation else CellNumber(before, c)
    requires forall c: Cell | c.pair < cfg.words / 2 ::
               CellNumber(now, c) == if c == CellOf(cfg, n, key) then generation else CellNumber(sofar, c)
    ensures forall c: Cell | c.pair < cfg.words / 2 ::
              CellNumber(now, c) == if Touches(cfg, key, c, n + 1) then generation else CellNumber(before, c)
  {
    forall c: Cell | c.pair < cfg.words / 2
      ensures CellNumber(now, c) == if Touches(cfg, key, c, n + 1) then generation else CellNumber(before, c)
    {
      TouchesNext(cfg, key, c, n);
    }
  }

  method SetCell(data: array<bv64>, low: nat, bit: bv6, generation: int)
    requires low % 2 == 0 && low + 1 < data.Length && data.Length % 2 == 0 && 1 <= generation <= 3
    modifies data
    ensures forall c: Cell | c.pair < data.Length / 2 ::
              CellNumber(data[..], c) == if c == Cell(low / 2, bit) then generation else CellNumber(old(data[..]), c)
  {
    data[low], data[low + 1] := SetPair(data[low], data[low + 1], bit, generation);
    forall c: Cell | c.pair < data.Length / 2
      ensures CellNumber(data[..], c) == if c == Cell(low / 2, bit) then generation else CellNumber(old(data[..]), c)
    {
      assert c == Cell(c.pair, c.bit);
      assert 2 * c.pair == low <==> c.pair == low / 2;
    }
  }

  lemma {:induction false} TouchesNext(cfg: Config, key: Key, c: Cell, n: nat)
    requires cfg.Valid()
    ensures Touches(cfg, key, c, n + 1) <==> Touches(cfg, key, c, n) || CellOf(cfg, n, key) == c
  {
    if Touches(cfg, key, c, n) {
      var i: nat :| i < n && CellOf(cfg, i, key) == c;
    }
  }

  /** Every position holds the label that the keys give it in epoch `now`. */
  ghost predicate Reflects(cfg: Config, keys: seq<Key>, d: seq<bv64>, now: int)
    requires cfg.Valid() && |d| == cfg.words
  {
    forall c: Cell | c.pair < |d| / 2 :: CellNumber(d, c) == Label(LastTouch(cfg, keys, |keys|, c), now)
  }

  lemma {:induction false} WipeReflects(
    cfg: Config, keys: seq<Key>, d: seq<bv64>, d': seq<bv64>, now: nat, generation: int)
    requires cfg.Valid() && |d| == |d'| == cfg.words && now == ClockAt(cfg.perGeneration, |keys|).epoch
    requires generation == Generation(now + 1)
    requires Reflects(cfg, keys, d, now)
    requires forall c: Cell | c.pair < |d| / 2 ::
               CellNumber(d', c) == if CellNumber(d, c) == generation then 0 else CellNumber(d, c)
    ensures Reflects(cfg, keys, d', now + 1)
  {
    forall c: Cell | c.pair < |d| / 2
      ensures CellNumber(d', c) == Label(LastTouch(cfg, keys, |keys|, c), now + 1)
    {
      assert CellNumber(d, c) == Label(LastTouch(cfg, keys, |keys|, c), now);
      LastTouchBounds(cfg, keys, |keys|, c);
      LabelAges(LastTouch(cfg, keys, |keys|, c), now);
    }
  }

  lemma {:induction false} LastTouchPrefix(cfg: Config, keys: seq<Key>, key: Key, n: nat, c: Cell)
    requires cfg.Valid() && n <= |keys|
    ensures LastTouch(cfg, keys + [key], n, c) == LastTouch(cfg, keys, n, c)
  {
    if n > 0 {
      LastTouchPrefix(cfg, keys, key, n - 1, c);
    }
  }

  lemma {:induction false} MarkReflects(cfg: Config, keys: seq<Key>, key: Key, d: seq<bv64>, d': seq<bv64>, now: nat)
    requires cfg.Valid() && |d| == |d'| == cfg.words && now == ClockAt(cfg.perGeneration, |keys| + 1).epoch
    requires Reflects(cfg, keys, d, now)
    requires forall c: Cell | c.pair < |d| / 2 ::
               CellNumber(d', c) == if Touches(cfg, key, c, cfg.nHashFuncs) then Generation(now) else CellNumber(d, c)
    ensures Reflects(cfg, keys + [key], d', now)
  {
    forall c: Cell | c.pair < |d| / 2
      ensures CellNumber(d', c) == Label(LastTouch(cfg, keys + [key], |keys| + 1, c), now)
    {
      assert CellNumber(d, c) == Label(LastTouch(cfg, keys, |keys|, c), now);
      LastTouchPrefix(cfg, keys, key, |keys|, c);
    }
  }

  /** A new generation forgets what is three generations old, and nothing else. */
  lemma {:induction false} LabelAges(t: int, now: nat)
    requires t <= now
    ensures Label(t, now + 1) == if Label(t, now) == Generation(now + 1) then 0 else Label(t, now)
  {
    if t >= 0 && t >= now - 2 {
      assert t + 1 <= now ==> Generation(t + 2) == if Generation(t + 1) == 3 then 1 else Generation(t + 1) + 1;
    }
  }

  /** The numbers that the constructor works out. */
  method Sizes(nElements: nat, nHashFuncs: nat, factor: real) returns (nEntriesPerGeneration: nat, words: nat)
    ensures nEntriesPerGeneration == PerGeneration(nElements)
    ensures words == Words(FilterBits(nElements, nHashFuncs, factor)) && words % 2 == 0
  {
    nEntriesPerGeneration := (nElements + 1) % TWO_32 / 2;
    var nMaxElements := 3 * nEntriesPerGeneration % TWO_32;
    assert nMaxElements == MaxElements(nElements);
    words := Words(BitsFor(nMaxElements, nHashFuncs, factor));
  }

  class RollingBloomFilter {
    var cfg: Config
    const data: array<bv64>
    var nEntriesThisGeneration: nat
    var nGeneration: int
    ghost var keys: seq<Key>

    /** The keys inserted since the last reset determine every position. */
    ghost predicate Valid()
      reads this, data
    {
      && cfg.Valid() && data.Length == cfg.words
      && var clock := ClockAt(cfg.perGeneration, |keys|);
         nEntriesThisGeneration == clock.entries && nGeneration == Generation(clock.epoch) &&
         Reflects(cfg, keys, data[..], clock.epoch)
    }

    /** `nHashFuncs` and `factor` come from the rate of false answers.  A filter
        without words cannot be used: insert takes a rest modulo their number. */
    constructor (nElements: nat, nHashFuncs: nat, factor: real, hash: (nat, Key) -> bv32)
      requires nElements < TWO_32 && nHashFuncs >= 1 && factor > 0.0
      requires FilterBits(nElements, nHashFuncs, factor) < TWO_32
      ensures cfg == ConfigFor(nElements, nHashFuncs, factor, hash) && keys == [] && fresh(data)
      ensures Valid() <==> !(nElements == 0 || nElements == TWO_32 - 1 ||
                             FilterBits(nElements, nHashFuncs, factor) > TWO_32 - 64)
    {
      EmptyIff(nElements, nHashFuncs, factor);
      var nEntriesPerGeneration, words := Sizes(nElements, nHashFuncs, factor);
      cfg := Config(hash, nHashFuncs, words, nEntriesPerGeneration);
      data := new bv64[words];
      new;
      Reset(hash);
    }

    /** `hash` is the hash family of a newly drawn tweak. */
    method Reset(hash: (nat, Key) -> bv32)
      requires data.Length == cfg.words && cfg.words % 2 == 0
      modifies this, data
      ensures keys == [] && cfg == old(cfg).(hash := hash) && (cfg.words > 0 ==> Valid())
    {
      cfg := cfg.(hash := hash);
      nEntriesThisGeneration, nGeneration := 0, 1;
      keys := [];
      ZeroOut(data);
    }

    method Insert(key: Key)
      requires Valid()
      modifies this`nEntriesThisGeneration, this`nGeneration, this`keys, data
      ensures Valid() && keys == old(keys) + [key]
    {
      ghost var now := ClockAt(cfg.perGeneration, |keys| + 1).epoch;
      if nEntriesThisGeneration == cfg.perGeneration {
        NextGeneration();
      }
      ghost var d := data[..];
      nEntriesThisGeneration := nEntriesThisGeneration + 1;
      Mark(data, cfg, key, nGeneration);
      MarkReflects(cfg, keys, key, d, data[..], now);
      keys := keys + [key];
    }

    method NextGeneration()
      requires Valid() && nEntriesThisGeneration == cfg.perGeneration
      modifies this`nEntriesThisGeneration, this`nGeneration, data
      ensures nEntriesThisGeneration == 0
      ensures var now := ClockAt(cfg.perGeneration, |keys|).epoch + 1;
              nGeneration == Generation(now) && Reflects(cfg, keys, data[..], now)
    {
      ghost var before := ClockAt(cfg.perGeneration, |keys|).epoch;
      nEntriesThisGeneration := 0;
      nGeneration := nGeneration + 1;
      if nGeneration == 4 {
        nGeneration := 1;
      }
      ghost var d := data[..];
      Wipe(data, nGeneration);
      WipeReflects(cfg, keys, d, data[..], before, nGeneration);
    }

    /** Exactly the keys all of whose positions are set. */
    method Contains(key: Key) returns (r: bool)
      requires Valid()
      ensures r == Member(cfg, keys, key)
    {
      for n := 0 to cfg.nHashFuncs
        invariant forall i: nat | i < n ::
                    Label(LastTouch(cfg, keys, |keys|, CellOf(cfg, i, key)),
                          ClockAt(cfg.perGeneration, |keys|).epoch) != 0
      {
        var h := cfg.hash(n, key);
        var pos := PosOf(h, data.Length);
        var low := pos - pos % 2;
        var set1 := IsSet(data[low], data[low + 1], BitOf(h));
        assert CellOf(cfg, n, key) == Cell(low / 2, BitOf(h));
        assert CellNumber(data[..], CellOf(cfg, n, key)) == Number(data[low], data[low + 1], BitOf(h));
        if !set1 {
          return false;
        }
      }
      return true;
    }
  }

  method ZeroOut(data: array<bv64>)
    modifies data
    ensures data.Length % 2 == 0 ==> forall c: Cell | c.pair < data.Length / 2 :: CellNumber(data[..], c) == 0
  {
    for i := 0 to data.Length
      invariant forall j | 0 <= j < i :: data[j] == 0
    {
      data[i] := 0;
    }
    if data.Length % 2 == 0 {
      forall c: Cell | c.pair < data.Length / 2
        ensures CellNumber(data[..], c) == 0
      {
        ZeroNumber(c.bit);
      }
    }
  }

  lemma {:induction false} ZeroNumber(b: bv6)
    ensures Number(0, 0, b) == 0
  {
  }
}
