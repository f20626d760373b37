/**
  The cuckoo cache of src/cuckoocache.h as a value: a table of slots, each with
  an element, whether it is to be kept, and whether it is of the current epoch.
  Module `CuckooCache` has the code over the table and the packed flags.
 */
module Cuckoo {
  import opened Common
  import Limbs

  const WAYS := 8

  type Element = int

  /** `live` is the negation of the collection flag. */
  datatype Slot = Slot(element: Element, live: bool, recent: bool)

  /** The hash functions, the size, and the two limits that follow from it. */
  datatype Config = Config(hash: (nat, Element) -> nat, size: nat, epochSize: nat, depthLimit: nat) {
    ghost predicate Valid() {
      && 2 <= size < TWO_32 && epochSize >= 1
      && forall k: nat, e: Element :: hash(k, e) < TWO_32
    }
  }

  /** What `setup` makes of a size, in 32 bits. */
  function EpochSize(size: nat): nat {
    Max(1, 45 * size % TWO_32 / 100)
  }

  function ConfigFor(hash: (nat, Element) -> nat, newSize: nat, depthLimit: nat): Config {
    Config(hash, Max(2, newSize), EpochSize(Max(2, newSize)), depthLimit)
  }

  /** An epoch is 45% of the table exactly if the table has at most 95443717
      slots; larger products do not fit in 32 bits. */
  lemma {:induction false} EpochSizeIff(size: nat)
    requires size < TWO_32
    ensures EpochSize(size) == Max(1, 45 * size / 100) <==> size <= 95443717
  {
    if size <= 95443717 {
      assert 45 * size % TWO_32 == 45 * size;
    } else {
      var rest := 45 * size % TWO_32;
      assert rest <= 45 * size - TWO_32;
      assert rest / 100 < 45 * size / 100;
    }
  }

  datatype Cache = Cache(slots: seq<Slot>, counter: nat)

  ghost predicate Fits(cfg: Config, c: Cache) {
    cfg.Valid() && |c.slots| == cfg.size
  }

  /** compute_hashes: the high half of a product instead of a remainder. */
  function Loc(cfg: Config, e: Element, k: nat): (l: nat) {
    cfg.hash(k, e) * cfg.size / TWO_32
  }

  lemma {:induction false} ProductBelow(a: nat, b: nat, n: nat)
    requires a < b && n > 0
    ensures a * n < b * n
  {
    assert b * n == a * n + (b - a) * n;
  }

  lemma {:induction false} HighHalf(h: nat, n: nat)
    requires h < TWO_32 && n > 0
    ensures h * n / TWO_32 < n
  {
    ProductBelow(h, TWO_32, n);
    Limbs.QuotientBelow(h * n, TWO_32, n);
  }

  lemma {:induction false} LocInRange(cfg: Config, e: Element, k: nat)
    requires cfg.Valid()
    ensures Loc(cfg, e, k) < cfg.size
  {
    HighHalf(cfg.hash(k, e), cfg.size);
  }

  /** The first of the eight locations, from `k` on, that holds the element. */
  function FindSame(cfg: Config, s: seq<Slot>, e: Element, k: nat): (r: nat)
    requires k <= WAYS && forall j: nat | j < WAYS :: Loc(cfg, e, j) < |s|
    ensures k <= r <= WAYS
    ensures r < WAYS ==> s[Loc(cfg, e, r)].element == e
    ensures forall j: nat | k <= j < r :: s[Loc(cfg, e, j)].element != e
    decreases WAYS - k
  {
    if k == WAYS || s[Loc(cfg, e, k)].element == e then k else FindSame(cfg, s, e, k + 1)
  }

  /** The first of the eight locations, from `k` on, that may be overwritten. */
  function FindFree(cfg: Config, s: seq<Slot>, e: Element, k: nat): (r: nat)
    requires k <= WAYS && forall j: nat | j < WAYS :: Loc(cfg, e, j) < |s|
    ensures k <= r <= WAYS
    ensures r < WAYS ==> !s[Loc(cfg, e, r)].live
    ensures forall j: nat | k <= j < r :: s[Loc(cfg, e, j)].live
    decreases WAYS - k
  {
    if k == WAYS || !s[Loc(cfg, e, k)].live then k else FindFree(cfg, s, e, k + 1)
  }

  /** The position of a location among the eight, or 8. */
  function FindLoc(cfg: Config, e: Element, l: int, k: nat): (r: nat)
    requires k <= WAYS
    ensures k <= r <= WAYS
    ensures r < WAYS ==> Loc(cfg, e, r) == l
    ensures forall j: nat | k <= j < r :: Loc(cfg, e, j) != l
    decreases WAYS - k
  {
    if k == WAYS || Loc(cfg, e, k) == l then k else FindLoc(cfg, e, l, k + 1)
  }

  /** The way to displace: the one after the way just filled. */
  function NextWay(cfg: Config, e: Element, lastLoc: int): (k: nat)
    ensures k < WAYS
  {
    (1 + FindLoc(cfg, e, lastLoc, 0)) % WAYS
  }

  /** An element that was displaced moves on from the way it had, round the eight,
      and so not back to where it came from if its locations differ. */
  lemma {:induction false} MovesOn(cfg: Config, e: Element, lastLoc: int, w: nat)
    requires w < WAYS && Loc(cfg, e, w) == lastLoc && forall j: nat | j < w :: Loc(cfg, e, j) != lastLoc
    ensures NextWay(cfg, e, lastLoc) == if w == 7 then 0 else w + 1
    ensures (forall j: nat | j < WAYS && j != w :: Loc(cfg, e, j) != lastLoc) ==>
              Loc(cfg, e, NextWay(cfg, e, lastLoc)) != lastLoc
  {
    assert FindLoc(cfg, e, lastLoc, 0) == w;
  }

  lemma {:induction false} FindNone(cfg: Config, e: Element, k: nat)
    requires k <= WAYS
    ensures FindLoc(cfg, e, -1, k) == WAYS
    decreases WAYS - k
  {
    if k < WAYS {
      FindNone(cfg, e, k + 1);
    }
  }

  /** The first element to be displaced is the one at the second location. */
  lemma {:induction false} FirstDisplaced(cfg: Config, e: Element)
    ensures NextWay(cfg, e, -1) == 1
  {
    FindNone(cfg, e, 0);
  }

  ghost predicate InRange(cfg: Config, size: nat) {
    forall e: Element, k: nat {:trigger Loc(cfg, e, k)} :: Loc(cfg, e, k) < size
  }

  /** The displacement loop of `insert`: the slots when element `e` has been
      placed in at most `depth` rounds, and the element dropped if there was no
      room. */
  ghost function Place(cfg: Config, s: seq<Slot>, e: Element, recent: bool, lastLoc: int, depth: nat)
    : (r: (seq<Slot>, Option<Element>))
    requires InRange(cfg, |s|)
    ensures |r.0| == |s|
    decreases depth
  {
    if depth == 0 then (s, Some(e))
    else
      var k := FindFree(cfg, s, e, 0);
      if k < WAYS then (s[Loc(cfg, e, k) := Slot(e, true, recent)], None)
      else
        var l := Loc(cfg, e, NextWay(cfg, e, lastLoc));
        Place(cfg, s[l := Slot(e, true, recent)], s[l].element, s[l].recent, l, depth - 1)
  }

  /** The current-epoch entries among the first `n` slots. */
  function Recent(s: seq<Slot>, n: nat): nat
    requires n <= |s|
  {
    if n == 0 then 0 else Recent(s, n - 1) + if s[n - 1].live && s[n - 1].recent then 1 else 0
  }

  /** Entries of the old epoch may go, those of the current one become old. */
  function Age(s: seq<Slot>): (r: seq<Slot>)
    ensures |r| == |s|
    ensures forall i | 0 <= i < |s| :: r[i] == Slot(s[i].element, s[i].live && s[i].recent, false)
  {
    seq(|s|, i requires 0 <= i < |s| => Slot(s[i].element, s[i].live && s[i].recent, false))
  }

  function EpochCheck(cfg: Config, c: Cache): (r: Cache)
    ensures |r.slots| == |c.slots|
  {
    if c.counter != 0 then c.(counter := c.counter - 1)
    else
      var used := Recent(c.slots, |c.slots|);
      if used >= cfg.epochSize then Cache(Age(c.slots), cfg.epochSize)
      else c.(counter := Max(1, Max(cfg.epochSize / 16, cfg.epochSize - used)))
  }

  ghost function Insert(cfg: Config, c0: Cache, e: Element): (Cache, Option<Element>)
    requires InRange(cfg, |c0.slots|)
  {
    var c := EpochCheck(cfg, c0);
    var k := FindSame(cfg, c.slots, e, 0);
    if k < WAYS then (c.(slots := c.slots[Loc(cfg, e, k) := Slot(e, true, true)]), None)
    else
      var (s, dropped) := Place(cfg, c.slots, e, true, -1, cfg.depthLimit);
      (c.(slots := s), dropped)
  }

  ghost function Contains(cfg: Config, c: Cache, e: Element, erase: bool): (Cache, bool)
    requires InRange(cfg, |c.slots|)
  {
    var k := FindSame(cfg, c.slots, e, 0);
    if k == WAYS then (c, false)
    else
      var l := Loc(cfg, e, k);
      (if erase then c.(slots := c.slots[l := c.slots[l].(live := false)]) else c, true)
  }

  function Setup(cfg: Config, initial: Element): Cache {
    Cache(seq(cfg.size, _ => Slot(initial, false, false)), cfg.epochSize)
  }

  // ----- elements that are to be kept

  /** A kept element is in one of its own eight locations. */
  predicate PlacedAt(cfg: Config, s: seq<Slot>, i: nat)
    requires i < |s|
  {
    s[i].live ==> exists k: nat :: k < WAYS && Loc(cfg, s[i].element, k) == i
  }

  ghost predicate Placed(cfg: Config, s: seq<Slot>) {
    forall i: nat {:trigger PlacedAt(cfg, s, i)} | i < |s| :: PlacedAt(cfg, s, i)
  }

  /** The slot keeps the element, and keeps it for the current epoch if `young`
      asks for that. */
  predicate Keeps(t: Slot, x: Element, young: bool) {
    t.live && t.element == x && (young ==> t.recent)
  }

  /** How often an element is kept among the first `n` slots. */
  function Kept(s: seq<Slot>, n: nat, x: Element, young: bool): nat
    requires n <= |s|
  {
    if n == 0 then 0 else Kept(s, n - 1, x, young) + One(Keeps(s[n - 1], x, young))
  }

  function One(b: bool): nat {
    if b then 1 else 0
  }

  lemma {:induction false} KeptUpdate(s: seq<Slot>, n: nat, l: nat, t: Slot, x: Element, young: bool)
    requires l < |s| && n <= |s|
    ensures Kept(s[l := t], n, x, young) + (if l < n then One(Keeps(s[l], x, young)) else 0) ==
            Kept(s, n, x, young) + (if l < n then One(Keeps(t, x, young)) else 0)
  {
    if n > 0 {
      KeptUpdate(s, n - 1, l, t, x, young);
    }
  }

  lemma {:induction false} RecentUpdate(s: seq<Slot>, n: nat, l: nat, t: Slot)
    requires l < |s| && n <= |s|
    ensures Recent(s[l := t], n) + (if l < n then One(s[l].live && s[l].recent) else 0) ==
            Recent(s, n) + (if l < n then One(t.live && t.recent) else 0)
  {
    if n > 0 {
      RecentUpdate(s, n - 1, l, t);
    }
  }

  lemma {:induction false} PlacedUpdate(cfg: Config, s: seq<Slot>, l: nat, t: Slot, k: nat)
    requires Placed(cfg, s) && l < |s| && (t.live ==> k < WAYS && Loc(cfg, t.element, k) == l)
    ensures Placed(cfg, s[l := t])
  {
    var r := s[l := t];
    forall i: nat | i < |r|
      ensures PlacedAt(cfg, r, i)
    {
      assert PlacedAt(cfg, s, i);
    }
  }

  /** The displacement loop keeps every kept element at a location of its own and
      adds at most one entry to the epoch. */
  lemma {:induction false} PlacePlaced(
    cfg: Config, s: seq<Slot>, e: Element, recent: bool, lastLoc: int, depth: nat)
    requires InRange(cfg, |s|) && Placed(cfg, s)
    ensures var (r, _) := Place(cfg, s, e, recent, lastLoc, depth);
            Placed(cfg, r) && Recent(r, |s|) <= Recent(s, |s|) + One(recent)
    decreases depth
  {
    if depth > 0 {
      var k := FindFree(cfg, s, e, 0);
      var w := if k < WAYS then k else NextWay(cfg, e, lastLoc);
      var l, t := Loc(cfg, e, w), Slot(e, true, recent);
      PlacedUpdate(cfg, s, l, t, w);
      RecentUpdate(s, |s|, l, t);
      if k == WAYS {
        PlacePlaced(cfg, s[l := t], s[l].element, s[l].recent, l, depth - 1);
      }
    }
  }

  /** It loses at most the element it drops. */
  lemma {:induction false} PlaceKeeps(
    cfg: Config, s: seq<Slot>, e: Element, recent: bool, lastLoc: int, depth: nat, x: Element, young: bool)
    requires InRange(cfg, |s|)
    ensures var (r, dropped) := Place(cfg, s, e, recent, lastLoc, depth);
            && Kept(r, |s|, x, young) + One(dropped == Some(x)) >=
               Kept(s, |s|, x, young) + One(x == e && (young ==> recent))
            && (!young ==> Kept(r, |s|, x, young) + One(dropped == Some(x)) == Kept(s, |s|, x, young) + One(x == e))
    decreases depth
  {
    if depth > 0 {
      var k := FindFree(cfg, s, e, 0);
      var l, t := Loc(cfg, e, if k < WAYS then k else NextWay(cfg, e, lastLoc)), Slot(e, true, recent);
      KeptUpdate(s, |s|, l, t, x, young);
      if k == WAYS {
        PlaceKeeps(cfg, s[l := t], s[l].element, s[l].recent, l, depth - 1, x, young);
      }
    }
  }

  lemma {:induction false} AgeRecent(s: seq<Slot>, n: nat)
    requires n <= |s|
    ensures Recent(Age(s), n) == 0
  {
    if n > 0 {
      AgeRecent(s, n - 1);
    }
  }

  lemma {:induction false} AgePlaced(cfg: Config, s: seq<Slot>)
    requires Placed(cfg, s)
    ensures Placed(cfg, Age(s))
  {
    forall i: nat | i < |s|
      ensures PlacedAt(cfg, Age(s), i)
    {
      assert PlacedAt(cfg, s, i);
    }
  }

  lemma {:induction false} EpochCheckKeeps(cfg: Config, c: Cache)
    requires Placed(cfg, c.slots)
    ensures var r := EpochCheck(cfg, c); |r.slots| == |c.slots| && Placed(cfg, r.slots)
  {
    AgePlaced(cfg, c.slots);
  }

  /** One insert, after its epoch check: everything kept, and the new element,
      is kept afterwards, but for at most one element dropped. */
  lemma {:induction false} InsertKeeps(cfg: Config, c0: Cache, e: Element, x: Element, young: bool)
    requires InRange(cfg, |c0.slots|) && Placed(cfg, c0.slots)
    ensures var c := EpochCheck(cfg, c0);
            var (r, dropped) := Insert(cfg, c0, e);
            && |r.slots| == |c.slots| && Placed(cfg, r.slots)
            && Kept(r.slots, |r.slots|, x, young) + One(dropped == Some(x)) >= Kept(c.slots, |c.slots|, x, young)
            && (!young ==> Kept(r.slots, |r.slots|, x, young) + One(dropped == Some(x)) <=
                           Kept(c.slots, |c.slots|, x, young) + One(x == e))
            && (x == e && dropped != Some(e) ==> Kept(r.slots, |r.slots|, e, young) >= 1)
            && Recent(r.slots, |r.slots|) <= Recent(c.slots, |c.slots|) + 1
  {
    EpochCheckKeeps(cfg, c0);
    var c := EpochCheck(cfg, c0);
    var k := FindSame(cfg, c.slots, e, 0);
    if k < WAYS {
      var l, t := Loc(cfg, e, k), Slot(e, true, true);
      PlacedUpdate(cfg, c.slots, l, t, k);
      KeptUpdate(c.slots, |c.slots|, l, t, x, young);
      RecentUpdate(c.slots, |c.slots|, l, t);
      KeptSlot(c.slots[l := t], |c.slots|, l, young);
    } else {
      PlacePlaced(cfg, c.slots, e, true, -1, cfg.depthLimit);
      PlaceKeeps(cfg, c.slots, e, true, -1, cfg.depthLimit, x, young);
    }
  }

  lemma {:induction false} KeptSlot(s: seq<Slot>, n: nat, i: nat, young: bool)
    requires i < n <= |s| && s[i].live && (young ==> s[i].recent)
    ensures Kept(s, n, s[i].element, young) >= 1
  {
    if i < n - 1 {
      KeptSlot(s, n - 1, i, young);
    }
  }

  lemma {:induction false} KeptSomewhere(s: seq<Slot>, n: nat, x: Element, young: bool) returns (i: nat)
    requires n <= |s| && Kept(s, n, x, young) >= 1
    ensures i < n && Keeps(s[i], x, young)
  {
    if Keeps(s[n - 1], x, young) {
      i := n - 1;
    } else {
      i := KeptSomewhere(s, n - 1, x, young);
    }
  }

  /** What is kept is found. */
  lemma {:induction false} KeptIsFound(cfg: Config, c: Cache, x: Element, erase: bool)
    requires InRange(cfg, |c.slots|) && Placed(cfg, c.slots) && Kept(c.slots, |c.slots|, x, false) >= 1
    ensures Contains(cfg, c, x, erase).1
  {
    var i := KeptSomewhere(c.slots, |c.slots|, x, false);
    assert PlacedAt(cfg, c.slots, i);
    var k: nat :| k < WAYS && Loc(cfg, x, k) == i;
  }

  /** After an insert, every element kept before it and the new one are found,
      but for the one dropped. */
  lemma {:induction false} InsertThenFound(cfg: Config, c0: Cache, e: Element, x: Element)
    requires InRange(cfg, |c0.slots|) && Placed(cfg, c0.slots)
    requires x == e || Kept(EpochCheck(cfg, c0).slots, |c0.slots|, x, false) >= 1
    ensures var (r, dropped) := Insert(cfg, c0, e);
            dropped != Some(x) ==> InRange(cfg, |r.slots|) && Contains(cfg, r, x, false).1
  {
    EpochCheckKeeps(cfg, c0);
    InsertKeeps(cfg, c0, e, x, false);
    var (r, dropped) := Insert(cfg, c0, e);
    if dropped != Some(x) {
      KeptIsFound(cfg, r, x, false);
    }
  }

  lemma {:induction false} ContainsKeeps(cfg: Config, c: Cache, e: Element, erase: bool)
    requires InRange(cfg, |c.slots|) && Placed(cfg, c.slots)
    ensures var r := Contains(cfg, c, e, erase).0;
            && |r.slots| == |c.slots| && Placed(cfg, r.slots) && r.counter == c.counter
            && Recent(r.slots, |r.slots|) <= Recent(c.slots, |c.slots|)
  {
    var k := FindSame(cfg, c.slots, e, 0);
    if k < WAYS {
      var l := Loc(cfg, e, k);
      var t := c.slots[l].(live := false);
      PlacedUpdate(cfg, c.slots, l, t, 0);
      RecentUpdate(c.slots, |c.slots|, l, t);
    }
  }

  /** Slot `l` holds the element and is one of its eight locations. */
  predicate HeldAt(cfg: Config, s: seq<Slot>, e: Element, l: nat) {
    l < |s| && s[l].element == e && exists k: nat :: k < WAYS && Loc(cfg, e, k) == l
  }

  /** A lookup answers true if and only if one of the eight locations holds the
      element.  Erasing marks one such slot, which may then be overwritten, and
      changes nothing else; any other lookup changes nothing. */
  lemma {:induction false} ContainsIff(cfg: Config, c: Cache, e: Element, erase: bool)
    requires InRange(cfg, |c.slots|)
    ensures var (r, found) := Contains(cfg, c, e, erase);
            && (found <==> exists l: nat :: HeldAt(cfg, c.slots, e, l))
            && (!found || !erase ==> r == c)
            && (found && erase ==> Erased(cfg, c, r, e))
  {
    var k := FindSame(cfg, c.slots, e, 0);
    if k < WAYS {
      assert HeldAt(cfg, c.slots, e, Loc(cfg, e, k));
      assert erase ==> ErasedAt(cfg, c, Contains(cfg, c, e, erase).0, e, Loc(cfg, e, k));
    } else {
      forall l: nat
        ensures !HeldAt(cfg, c.slots, e, l)
      {
      }
    }
  }

  predicate ErasedAt(cfg: Config, c: Cache, r: Cache, e: Element, l: nat) {
    && HeldAt(cfg, c.slots, e, l) && r.counter == c.counter && |r.slots| == |c.slots|
    && r.slots[l].element == e && !r.slots[l].live && r.slots[l].recent == c.slots[l].recent
    && forall i | 0 <= i < |c.slots| && i != l :: r.slots[i] == c.slots[i]
  }

  ghost predicate Erased(cfg: Config, c: Cache, r: Cache, e: Element) {
    exists l: nat :: ErasedAt(cfg, c, r, e, l)
  }

  /** An element marked for erasure is still found until it is overwritten. */
  lemma {:induction false} EraseIsLazy(cfg: Config, c: Cache, e: Element)
    requires InRange(cfg, |c.slots|)
    ensures var (r, found) := Contains(cfg, c, e, true);
            |r.slots| == |c.slots| && Contains(cfg, r, e, false).1 == found
  {
  }

  // ----- the size of the current epoch over a run

  /** The inserts left before the next scan make up for the room left. */
  ghost predicate EpochBounded(cfg: Config, c: Cache) {
    Recent(c.slots, |c.slots|) + c.counter <= cfg.epochSize + Max(1, cfg.epochSize / 16)
  }

  ghost predicate Inv(cfg: Config, c: Cache) {
    Fits(cfg, c) && Placed(cfg, c.slots) && EpochBounded(cfg, c)
  }

  lemma {:induction false} AllInRange(cfg: Config)
    requires cfg.Valid()
    ensures InRange(cfg, cfg.size)
  {
    forall e: Element, k: nat
      ensures Loc(cfg, e, k) < cfg.size
    {
      LocInRange(cfg, e, k);
    }
  }

  datatype Op = OpInsert(e: Element) | OpContains(e: Element, erase: bool)

  ghost function Apply(cfg: Config, c: Cache, op: Op): Cache
    requires InRange(cfg, |c.slots|)
  {
    match op
    case OpInsert(e) => Insert(cfg, c, e).0
    case OpContains(e, erase) => Contains(cfg, c, e, erase).0
  }

  lemma {:induction false} ApplyKeeps(cfg: Config, c: Cache, op: Op)
    requires Inv(cfg, c)
    ensures InRange(cfg, |c.slots|) && Inv(cfg, Apply(cfg, c, op))
  {
    AllInRange(cfg);
    match op
    case OpInsert(e) =>
      EpochCheckKeeps(cfg, c);
      InsertKeeps(cfg, c, e, e, false);
      if c.counter == 0 {
        AgeRecent(c.slots, |c.slots|);
      }
    case OpContains(e, erase) => ContainsKeeps(cfg, c, e, erase);
  }

  ghost function Run(cfg: Config, c: Cache, ops: seq<Op>): Cache
    requires Fits(cfg, c)
    decreases |ops|
  {
    if ops == [] then c
    else
      AllInRange(cfg);
      Run(cfg, Apply(cfg, c, ops[0]), ops[1..])
  }

  lemma {:induction false} SetupRecent(cfg: Config, initial: Element, n: nat)
    requires n <= cfg.size
    ensures Recent(Setup(cfg, initial).slots, n) == 0
  {
    if n > 0 {
      SetupRecent(cfg, initial, n - 1);
    }
  }

  lemma {:induction false} SetupInv(cfg: Config, initial: Element)
    requires cfg.Valid()
    ensures Inv(cfg, Setup(cfg, initial))
  {
    SetupRecent(cfg, initial, cfg.size);
  }

  lemma {:induction false} RunKeeps(cfg: Config, c: Cache, ops: seq<Op>)
    requires Inv(cfg, c)
    ensures Inv(cfg, Run(cfg, c, ops))
    decreases |ops|
  {
    if ops != [] {
      ApplyKeeps(cfg, c, ops[0]);
      RunKeeps(cfg, Apply(cfg, c, ops[0]), ops[1..]);
    }
  }

  /** Over every run from a new cache, the kept entries of the current epoch
      stay within a sixteenth of the epoch size above it. */
  lemma {:induction false} EpochNeverOverflows(cfg: Config, initial: Element, ops: seq<Op>)
    requires cfg.Valid()
    ensures var r := Run(cfg, Setup(cfg, initial), ops);
            Recent(r.slots, |r.slots|) <= cfg.epochSize + Max(1, cfg.epochSize / 16)
  {
    SetupInv(cfg, initial);
    RunKeeps(cfg, Setup(cfg, initial), ops);
  }

  // ----- how often the table is scanned

  function Inserts(ops: seq<Op>): nat {
    if ops == [] then 0 else One(ops[0].OpInsert?) + Inserts(ops[1..])
  }

  /** The number of inserts of a run whose epoch check counts the slots. */
  ghost function Scans(cfg: Config, c: Cache, ops: seq<Op>): nat
    requires Fits(cfg, c)
    decreases |ops|
  {
    if ops == [] then 0
    else
      AllInRange(cfg);
      One(ops[0].OpInsert? && c.counter == 0) + Scans(cfg, Apply(cfg, c, ops[0]), ops[1..])
  }

  lemma {:induction false} OneMore(scans: nat, gap: nat)
    ensures (1 + scans) * (gap + 1) == scans * (gap + 1) + gap + 1
  {
  }

  lemma {:induction false} CounterAfter(cfg: Config, c: Cache, op: Op, gap: nat)
    requires Fits(cfg, c) && InRange(cfg, |c.slots|) && gap == Max(1, cfg.epochSize / 16)
    ensures var d := Apply(cfg, c, op);
            && Fits(cfg, d)
            && (op.OpContains? ==> d.counter == c.counter)
            && (op.OpInsert? && c.counter > 0 ==> d.counter == c.counter - 1)
            && (op.OpInsert? && c.counter == 0 ==> d.counter >= gap)
  {
  }

  lemma {:induction false} ScansFrom(cfg: Config, c: Cache, ops: seq<Op>, gap: nat)
    requires Fits(cfg, c) && gap == Max(1, cfg.epochSize / 16)
    ensures Scans(cfg, c, ops) * (gap + 1) <= Inserts(ops) + gap - (if c.counter < gap then c.counter else gap)
    decreases |ops|
  {
    if ops != [] {
      AllInRange(cfg);
      var d, rest := Apply(cfg, c, ops[0]), ops[1..];
      CounterAfter(cfg, c, ops[0], gap);
      ScansFrom(cfg, d, rest, gap);
      var n := Scans(cfg, d, rest);
      assert Inserts(ops) == One(ops[0].OpInsert?) + Inserts(rest);
      if ops[0].OpInsert? && c.counter == 0 {
        OneMore(n, gap);
        assert Scans(cfg, c, ops) == 1 + n;
      } else {
        assert Scans(cfg, c, ops) == n;
      }
    }
  }

  /** Counting is rare: over every run from a new cache, at most one insert in
      `1 + max(1, epoch_size / 16)` counts the slots. */
  lemma {:induction false} ScansAreRare(cfg: Config, initial: Element, ops: seq<Op>)
    requires cfg.Valid()
    ensures Scans(cfg, Setup(cfg, initial), ops) * (Max(1, cfg.epochSize / 16) + 1) <= Inserts(ops)
  {
    ScansFrom(cfg, Setup(cfg, initial), ops, Max(1, cfg.epochSize / 16));
  }

  // ----- how long an element stays

  /** The epoch ends at the next insert. */
  predicate EpochEnds(cfg: Config, c: Cache) {
    c.counter == 0 && Recent(c.slots, |c.slots|) >= cfg.epochSize
  }

  /** The number of epochs that end during a run. */
  ghost function EpochsEnded(cfg: Config, c: Cache, ops: seq<Op>): nat
    requires Fits(cfg, c)
    decreases |ops|
  {
    if ops == [] then 0
    else
      AllInRange(cfg);
      One(ops[0].OpInsert? && EpochEnds(cfg, c)) + EpochsEnded(cfg, Apply(cfg, c, ops[0]), ops[1..])
  }

  /** The operation neither erases `x` nor reports it dropped. */
  ghost predicate Spares(cfg: Config, c: Cache, op: Op, x: Element)
    requires InRange(cfg, |c.slots|)
  {
    match op
    case OpInsert(e) => Insert(cfg, c, e).1 != Some(x)
    case OpContains(e, erase) => !erase || e != x
  }

  ghost predicate RunSpares(cfg: Config, c: Cache, ops: seq<Op>, x: Element)
    requires Fits(cfg, c)
    decreases |ops|
  {
    ops == [] ||
    (AllInRange(cfg);
     Spares(cfg, c, ops[0], x) && RunSpares(cfg, Apply(cfg, c, ops[0]), ops[1..], x))
  }

  /** The element is kept, and for the current epoch if one more is to end. */
  predicate Lasts(s: seq<Slot>, x: Element, ends: nat) {
    Kept(s, |s|, x, ends > 0) >= 1
  }

  lemma {:induction false} AgeKept(s: seq<Slot>, n: nat, x: Element)
    requires n <= |s|
    ensures Kept(Age(s), n, x, false) == Kept(s, n, x, true)
  {
    if n > 0 {
      AgeKept(s, n - 1, x);
    }
  }

  lemma {:induction false} ApplyLasts(cfg: Config, c: Cache, op: Op, x: Element, ends: nat)
    requires Inv(cfg, c) && InRange(cfg, |c.slots|) && Spares(cfg, c, op, x) && Lasts(c.slots, x, ends) && ends <= 1
    requires var ended := One(op.OpInsert? && EpochEnds(cfg, c)); ended <= ends
    ensures Lasts(Apply(cfg, c, op).slots, x, ends - One(op.OpInsert? && EpochEnds(cfg, c)))
  {
    match op
    case OpInsert(e) =>
      if EpochEnds(cfg, c) {
        AgeKept(c.slots, |c.slots|, x);
        InsertKeeps(cfg, c, e, x, false);
      } else {
        InsertKeeps(cfg, c, e, x, ends > 0);
      }
    case OpContains(e, erase) =>
      var k := FindSame(cfg, c.slots, e, 0);
      if k < WAYS {
        var l := Loc(cfg, e, k);
        KeptUpdate(c.slots, |c.slots|, l, c.slots[l].(live := false), x, ends > 0);
      }
  }

  lemma {:induction false} RunLasts(cfg: Config, c: Cache, ops: seq<Op>, x: Element, ends: nat)
    requires Inv(cfg, c) && RunSpares(cfg, c, ops, x) && Lasts(c.slots, x, ends)
    requires EpochsEnded(cfg, c, ops) <= ends <= 1
    ensures Inv(cfg, Run(cfg, c, ops)) && Kept(Run(cfg, c, ops).slots, cfg.size, x, false) >= 1
    decreases |ops|
  {
    if ops == [] {
      var i := KeptSomewhere(c.slots, |c.slots|, x, ends > 0);
      KeptSlot(c.slots, |c.slots|, i, false);
    } else {
      ApplyKeeps(cfg, c, ops[0]);
      ApplyLasts(cfg, c, ops[0], x, ends);
      RunLasts(cfg, Apply(cfg, c, ops[0]), ops[1..], x, ends - One(ops[0].OpInsert? && EpochEnds(cfg, c)));
    }
  }

  /** An element inserted at any point of a run, and after that never erased and
      never reported dropped, is found until two epochs have ended. */
  lemma {:induction false} InsertedStays(cfg: Config, initial: Element, before: seq<Op>, x: Element, ops: seq<Op>)
    requires cfg.Valid()
    requires var c := Run(cfg, Setup(cfg, initial), before);
             && Fits(cfg, c) && InRange(cfg, |c.slots|) && Insert(cfg, c, x).1 != Some(x)
             && var d := Insert(cfg, c, x).0;
                Fits(cfg, d) && RunSpares(cfg, d, ops, x) && EpochsEnded(cfg, d, ops) <= 1
    ensures var r := Run(cfg, Insert(cfg, Run(cfg, Setup(cfg, initial), before), x).0, ops);
            InRange(cfg, |r.slots|) && Contains(cfg, r, x, false).1
  {
    SetupInv(cfg, initial);
    RunKeeps(cfg, Setup(cfg, initial), before);
    var c := Run(cfg, Setup(cfg, initial), before);
    ApplyKeeps(cfg, c, OpInsert(x));
    InsertKeeps(cfg, c, x, x, true);
    var d := Insert(cfg, c, x).0;
    RunLasts(cfg, d, ops, x, 1);
    KeptIsFound(cfg, Run(cfg, d, ops), x, false);
  }

  // ----- what was never inserted

  /** No slot holds the element, whether to be kept or not. */
  predicate Absent(s: seq<Slot>, x: Element) {
    forall i | 0 <= i < |s| :: s[i].element != x
  }

  lemma {:induction false} PlaceAbsent(
    cfg: Config, s: seq<Slot>, e: Element, recent: bool, lastLoc: int, depth: nat, x: Element)
    requires InRange(cfg, |s|) && Absent(s, x) && e != x
    ensures Absent(Place(cfg, s, e, recent, lastLoc, depth).0, x)
    ensures Place(cfg, s, e, recent, lastLoc, depth).1 != Some(x)
    decreases depth
  {
    if depth > 0 && FindFree(cfg, s, e, 0) == WAYS {
      var l := Loc(cfg, e, NextWay(cfg, e, lastLoc));
      PlaceAbsent(cfg, s[l := Slot(e, true, recent)], s[l].element, s[l].recent, l, depth - 1, x);
    }
  }

  lemma {:induction false} ApplyAbsent(cfg: Config, c: Cache, op: Op, x: Element)
    requires InRange(cfg, |c.slots|) && Absent(c.slots, x) && op != OpInsert(x)
    ensures Absent(Apply(cfg, c, op).slots, x)
  {
    if op.OpInsert? {
      var d := EpochCheck(cfg, c);
      assert Absent(d.slots, x);
      PlaceAbsent(cfg, d.slots, op.e, true, -1, cfg.depthLimit, x);
    }
  }

  lemma {:induction false} RunAbsent(cfg: Config, c: Cache, ops: seq<Op>, x: Element)
    requires Inv(cfg, c) && Absent(c.slots, x) && forall i | 0 <= i < |ops| :: ops[i] != OpInsert(x)
    ensures Absent(Run(cfg, c, ops).slots, x)
    decreases |ops|
  {
    if ops != [] {
      ApplyKeeps(cfg, c, ops[0]);
      ApplyAbsent(cfg, c, ops[0], x);
      RunAbsent(cfg, Apply(cfg, c, ops[0]), ops[1..], x);
    }
  }

  /** Over every run from a new cache, nothing is found that was not inserted,
      but for what the slots are first filled with. */
  lemma {:induction false} NeverInsertedNeverFound(
    cfg: Config, initial: Element, ops: seq<Op>, x: Element, erase: bool)
    requires cfg.Valid() && x != initial && forall i | 0 <= i < |ops| :: ops[i] != OpInsert(x)
    ensures var r := Run(cfg, Setup(cfg, initial), ops);
            InRange(cfg, |r.slots|) && Contains(cfg, r, x, erase) == (r, false)
  {
    SetupInv(cfg, initial);
    RunKeeps(cfg, Setup(cfg, initial), ops);
    RunAbsent(cfg, Setup(cfg, initial), ops, x);
    AllInRange(cfg);
    ContainsIff(cfg, Run(cfg, Setup(cfg, initial), ops), x, erase);
  }
}
