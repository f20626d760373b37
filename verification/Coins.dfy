/**
  The stack of write-back coin caches of src/coins.cpp and src/coins.h.

  A cache holds entries flagged DIRTY and FRESH over a base view, which is
  again a cache or, at the bottom, the database.  `View` is the value of such
  a stack; `Lookup` is what a reader of the stack sees.  The main result,
  `RunRefinesMaps`, says that any run of operations on a stack of any depth
  shows at every level exactly what a stack of plain maps shows.
 */
module Coins {
  import opened Common

  const OP_RETURN := 0x6a
  const MAX_SCRIPT_SIZE := 10000

  datatype OutPoint = OutPoint(hash: int, n: nat)

  datatype TxOut = TxOut(value: int, script: seq<int>)

  datatype Coin = Coin(out: TxOut, coinBase: bool, height: nat) {
    predicate IsSpent() {
      out.value == -1
    }

    predicate IsUnspendable() {
      || (|out.script| > 0 && out.script[0] == OP_RETURN)
      || |out.script| > MAX_SCRIPT_SIZE
    }
  }

  /** A coin after `Clear`, and the coin of a newly emplaced entry. */
  const EMPTY_COIN := Coin(TxOut(-1, []), false, 0)

  datatype Entry = Entry(coin: Coin, isDirty: bool, isFresh: bool)

  type CoinsMap = map<OutPoint, Entry>

  datatype View =
    | Database(coins: map<OutPoint, Coin>)
    | Cached(base: View, cache: CoinsMap)

  function Unspent(c: Coin): Option<Coin> {
    if c.IsSpent() then None else Some(c)
  }

  /** The unspent coin a reader of `v` is shown at `o`. */
  function Lookup(v: View, o: OutPoint): Option<Coin> {
    match v
    case Database(m) => if o in m then Unspent(m[o]) else None
    case Cached(b, c) => if o in c then Unspent(c[o].coin) else Lookup(b, o)
  }

  /** The meaning of the two flags, given what the base view shows. */
  predicate EntrySound(e: Entry, parent: Option<Coin>) {
    && (!e.isDirty ==> Unspent(e.coin) == parent)
    && (e.isFresh ==> parent == None)
  }

  ghost predicate Sound(v: View) {
    match v
    case Database(_) => true
    case Cached(b, c) => Sound(b) && forall o | o in c :: EntrySound(c[o], Lookup(b, o))
  }

  ghost predicate SameLookups(v: View, w: View) {
    forall o: OutPoint :: Lookup(v, o) == Lookup(w, o)
  }

  /** `w` shows at every level of the stack what `v` shows there. */
  ghost predicate SameViews(v: View, w: View) {
    && SameLookups(v, w)
    && match (v, w)
       case (Database(_), Database(_)) => true
       case (Cached(b, _), Cached(b', _)) => SameViews(b, b')
       case _ => false
  }

  // ----- reading: FetchCoin, GetCoin, AccessCoin, HaveCoin

  /** The stack after `GetCoin` at `o`, and what `GetCoin` reports.  A cache
      never reports a spent coin; a database may. */
  function GetCoin(v: View, o: OutPoint): (View, Option<Coin>)
    decreases v, 1
  {
    match v
    case Database(m) => (v, if o in m then Some(m[o]) else None)
    case Cached(_, _) =>
      var w := Fetch(v, o);
      (w, if o in w.cache then Unspent(w.cache[o].coin) else None)
  }

  /** The stack after `FetchCoin`: the top cache now has an entry for `o`
      unless the base reports none. */
  function Fetch(v: View, o: OutPoint): (w: View)
    requires v.Cached?
    ensures w.Cached?
    decreases v, 0
  {
    if o in v.cache then v
    else
      var (b, r) := GetCoin(v.base, o);
      match r
      case None => Cached(b, v.cache)
      case Some(coin) => Cached(b, v.cache[o := Entry(coin, false, coin.IsSpent())])
  }

  lemma {:induction false} FetchKeepsViews(v: View, o: OutPoint)
    requires v.Cached? && Sound(v)
    ensures Sound(Fetch(v, o)) && SameViews(v, Fetch(v, o))
    ensures o in Fetch(v, o).cache ==> Unspent(Fetch(v, o).cache[o].coin) == Lookup(v, o)
    ensures o !in Fetch(v, o).cache ==> Lookup(v, o) == None
    decreases v, 0
  {
    SameViewsRefl(v);
    if o !in v.cache {
      GetCoinKeepsViews(v.base, o);
    }
  }

  lemma {:induction false} GetCoinKeepsViews(v: View, o: OutPoint)
    requires Sound(v)
    ensures Sound(GetCoin(v, o).0) && SameViews(v, GetCoin(v, o).0)
    ensures v.Cached? ==> GetCoin(v, o).1 == Lookup(v, o)
    ensures GetCoin(v, o).1 == None ==> Lookup(v, o) == None
    ensures GetCoin(v, o).1.Some? ==> Unspent(GetCoin(v, o).1.value) == Lookup(v, o)
    decreases v, 1
  {
    if v.Cached? {
      FetchKeepsViews(v, o);
    } else {
      SameViewsRefl(v);
    }
  }

  lemma {:induction false} SameViewsRefl(v: View)
    ensures SameViews(v, v)
  {
    if v.Cached? {
      SameViewsRefl(v.base);
    }
  }

  lemma {:induction false} SameViewsTrans(u: View, v: View, w: View)
    requires SameViews(u, v) && SameViews(v, w)
    ensures SameViews(u, w)
  {
    if u.Cached? {
      SameViewsTrans(u.base, v.base, w.base);
    }
  }

  // ----- writing: AddCoin, SpendCoin, Uncache

  /** AddCoin raises its logic error exactly here. */
  predicate AddThrows(v: View, o: OutPoint, coin: Coin, overwrite: bool)
    requires v.Cached?
  {
    !coin.IsUnspendable() && !overwrite && o in v.cache && !v.cache[o].coin.IsSpent()
  }

  function AddCoin(v: View, o: OutPoint, coin: Coin, overwrite: bool): (w: View)
    requires v.Cached?
  {
    if coin.IsUnspendable() || AddThrows(v, o, coin, overwrite) then v
    else
      var was := if o in v.cache then v.cache[o] else Entry(EMPTY_COIN, false, false);
      var first := !overwrite && !was.isDirty;
      v.(cache := v.cache[o := Entry(coin, true, was.isFresh || first)])
  }

  function SpendCoin(v: View, o: OutPoint): (w: View)
    requires v.Cached?
  {
    var f := Fetch(v, o);
    if o !in f.cache then f
    else if f.cache[o].isFresh then f.(cache := f.cache - {o})
    else f.(cache := f.cache[o := Entry(EMPTY_COIN, true, false)])
  }

  function Uncache(v: View, o: OutPoint): (w: View)
    requires v.Cached?
  {
    if o in v.cache && !v.cache[o].isDirty && !v.cache[o].isFresh
    then v.(cache := v.cache - {o}) else v
  }

  /** A script that starts with the byte of OP_RETURN, or is longer than a script
      may be, can never be satisfied. */
  predicate Unspendable(script: seq<int>) {
    [0x6a] <= script || |script| > 10000
  }

  /** What a caller of AddCoin must know: without `overwrite`, the view has no
      coin at `o`. */
  predicate AddAllowed(v: View, o: OutPoint, coin: Coin, overwrite: bool) {
    !coin.IsSpent() && (overwrite || Lookup(v, o) == None)
  }

  lemma {:induction false} AddCoinAdds(v: View, o: OutPoint, coin: Coin, overwrite: bool)
    requires v.Cached? && Sound(v) && AddAllowed(v, o, coin, overwrite)
    ensures !AddThrows(v, o, coin, overwrite)
    ensures Sound(AddCoin(v, o, coin, overwrite))
    ensures AddCoin(v, o, coin, overwrite).base == v.base
    ensures forall p: OutPoint :: Lookup(AddCoin(v, o, coin, overwrite), p) ==
              if p == o && !Unspendable(coin.out.script) then Some(coin) else Lookup(v, p)
  {
  }

  /** Such a coin is not even looked up: view and cache stay as they were, whatever
      the view, and nothing is thrown. */
  lemma {:induction false} UnspendableIgnored(v: View, o: OutPoint, coin: Coin, overwrite: bool)
    requires v.Cached? && Unspendable(coin.out.script)
    ensures AddCoin(v, o, coin, overwrite) == v && !AddThrows(v, o, coin, overwrite)
  {
  }

  lemma {:induction false} SpendCoinRemoves(v: View, o: OutPoint)
    requires v.Cached? && Sound(v)
    ensures SpendCoin(v, o).Cached? && Sound(SpendCoin(v, o))
    ensures SameViews(v.base, SpendCoin(v, o).base)
    ensures forall p: OutPoint :: Lookup(SpendCoin(v, o), p) == if p == o then None else Lookup(v, p)
  {
    FetchKeepsViews(v, o);
  }

  /** An entry that only repeats the base goes, any other entry stays, and no
      lookup changes. */
  lemma {:induction false} UncacheKeepsViews(v: View, o: OutPoint)
    requires v.Cached? && Sound(v)
    ensures Sound(Uncache(v, o)) && SameViews(v, Uncache(v, o))
    ensures o in Uncache(v, o).cache <==> o in v.cache && (v.cache[o].isDirty || v.cache[o].isFresh)
    ensures forall p: OutPoint | p != o :: Get(Uncache(v, o).cache, p) == Get(v.cache, p)
  {
    SameViewsRefl(v.base);
  }

  // ----- writing back: BatchWrite, Flush

  /** The "FRESH flag misapplied" error of BatchWrite. */
  predicate Misapplied(child: Entry, us: Entry) {
    child.isDirty && child.isFresh && !us.coin.IsSpent()
  }

  /** What BatchWrite leaves in a cache at one outpoint. */
  function MergeEntry(child: Option<Entry>, us: Option<Entry>): (r: Option<Entry>) {
    if child.None? || !child.value.isDirty then us
    else
      var c := child.value;
      match us
      case None =>
        if c.isFresh && c.coin.IsSpent() then None else Some(Entry(c.coin, true, c.isFresh))
      case Some(e) =>
        if e.isFresh && c.coin.IsSpent() then None else Some(Entry(c.coin, true, e.isFresh))
  }

  function Get<K, V>(m: map<K, V>, k: K): Option<V> {
    if k in m then Some(m[k]) else None
  }

  function MergeCache(us: CoinsMap, child: CoinsMap): (r: CoinsMap)
    ensures forall o: OutPoint :: Get(r, o) == MergeEntry(Get(child, o), Get(us, o))
  {
    map o | o in us.Keys + child.Keys && MergeEntry(Get(child, o), Get(us, o)).Some?
      :: MergeEntry(Get(child, o), Get(us, o)).value
  }

  /** What the database's BatchWrite leaves at one outpoint. */
  function MergeCoin(child: Option<Entry>, us: Option<Coin>): (r: Option<Coin>) {
    if child.None? || !child.value.isDirty then us else Unspent(child.value.coin)
  }

  function MergeDatabase(us: map<OutPoint, Coin>, child: CoinsMap): (r: map<OutPoint, Coin>)
    ensures forall o: OutPoint :: Get(r, o) == MergeCoin(Get(child, o), Get(us, o))
  {
    map o | o in us.Keys + child.Keys && MergeCoin(Get(child, o), Get(us, o)).Some?
      :: MergeCoin(Get(child, o), Get(us, o)).value
  }

  predicate BatchThrows(v: View, child: CoinsMap) {
    v.Cached? && exists o | o in child :: o in v.cache && Misapplied(child[o], v.cache[o])
  }

  function BatchWrite(v: View, child: CoinsMap): (w: View) {
    match v
    case Database(m) => Database(MergeDatabase(m, child))
    case Cached(b, c) => Cached(b, MergeCache(c, child))
  }

  function Flush(v: View): (w: View)
    requires v.Cached?
  {
    Cached(BatchWrite(v.base, v.cache), map[])
  }

  lemma {:induction false} BatchWriteSound(v: View, child: CoinsMap)
    requires Sound(Cached(v, child))
    ensures !BatchThrows(v, child)
    ensures Sound(BatchWrite(v, child))
    ensures v.Cached? ==> BatchWrite(v, child).base == v.base
    ensures SameLookups(BatchWrite(v, child), Cached(v, child))
  {
    var w := BatchWrite(v, child);
    forall o: OutPoint
      ensures Lookup(w, o) == Lookup(Cached(v, child), o)
      ensures w.Cached? && o in w.cache ==> EntrySound(w.cache[o], Lookup(w.base, o))
    {
      if v.Cached? {
        assert Get(w.cache, o) == MergeEntry(Get(child, o), Get(v.cache, o));
      } else {
        assert Get(w.coins, o) == MergeCoin(Get(child, o), Get(v.coins, o));
      }
    }
  }

  /** Flushing hands the flushed cache's view to its base, keeps the base sound
      against the level below, and shows the same view on top. */
  lemma {:induction false} FlushPushesDown(v: View)
    requires v.Cached? && Sound(v)
    ensures !BatchThrows(v.base, v.cache)
    ensures Sound(Flush(v))
    ensures SameLookups(Flush(v), v)
    ensures SameLookups(Flush(v).base, v)
    ensures v.base.Cached? ==> Flush(v).base.Cached? && Flush(v).base.base == v.base.base
  {
    BatchWriteSound(v.base, v.cache);
  }

  // ----- whole runs

  /** `depth` counts caches below the top one. */
  datatype Op =
    | Add(o: OutPoint, coin: Coin, overwrite: bool)
    | Spend(o: OutPoint)
    | Read(depth: nat, o: OutPoint)
    | Evict(depth: nat, o: OutPoint)
    | WriteBack(depth: nat)
    | Push
    | Discard

  function Depth(v: View): nat {
    if v.Cached? then 1 + Depth(v.base) else 0
  }

  function Level(v: View, d: nat): (w: View)
    requires d <= Depth(v)
    ensures Depth(w) == Depth(v) - d
  {
    if d == 0 then v else Level(v.base, d - 1)
  }

  function Replace(v: View, d: nat, w: View): View
    requires d <= Depth(v)
  {
    if d == 0 then w else Cached(Replace(v.base, d - 1, w), v.cache)
  }

  /** The stack can carry out `op` at all. */
  predicate Applicable(v: View, op: Op) {
    match op
    case Add(_, _, _) => v.Cached?
    case Spend(_) => v.Cached?
    case Read(d, _) => d <= Depth(v)
    case Evict(d, _) => d < Depth(v)
    case WriteBack(d) => d < Depth(v)
    case Push => true
    case Discard => v.Cached?
  }

  /** The stack after `op` and the coin `op` hands to its caller. */
  function Step(v: View, op: Op): (View, Option<Coin>)
    requires Applicable(v, op)
  {
    match op
    case Add(o, coin, overwrite) => (AddCoin(v, o, coin, overwrite), None)
    case Spend(o) =>
      var f := Fetch(v, o);
      (SpendCoin(v, o), if o in f.cache then Unspent(f.cache[o].coin) else None)
    case Read(d, o) =>
      var (w, r) := GetCoin(Level(v, d), o);
      (Replace(v, d, w), if r.Some? then Unspent(r.value) else None)
    case Evict(d, o) => (Replace(v, d, Uncache(Level(v, d), o)), None)
    case WriteBack(d) => (Replace(v, d, Flush(Level(v, d))), None)
    case Push => (Cached(v, map[]), None)
    case Discard => (v.base, None)
  }

  predicate StepThrows(v: View, op: Op)
    requires Applicable(v, op)
  {
    match op
    case Add(o, coin, overwrite) => AddThrows(v, o, coin, overwrite)
    case WriteBack(d) => BatchThrows(Level(v, d).base, Level(v, d).cache)
    case _ => false
  }

  // The same operations on a stack of plain maps, database first.

  type Maps = s: seq<map<OutPoint, Coin>> | |s| > 0 witness [map[]]

  function Top(s: Maps): map<OutPoint, Coin> {
    s[|s| - 1]
  }

  /** What a caller must ensure, in terms of the plain maps alone. */
  predicate Allowed(s: Maps, op: Op) {
    match op
    case Add(o, coin, overwrite) => |s| > 1 && !coin.IsSpent() && (overwrite || o !in Top(s))
    case Spend(_) => |s| > 1
    case Read(d, _) => d < |s|
    case Evict(d, _) => d + 1 < |s|
    case WriteBack(d) => d + 1 < |s|
    case Push => true
    case Discard => |s| > 1
  }

  function MapStep(s: Maps, op: Op): (Maps, Option<Coin>)
    requires Allowed(s, op)
  {
    match op
    case Add(o, coin, _) =>
      (if Unspendable(coin.out.script) then s else s[|s| - 1 := Top(s)[o := coin]], None)
    case Spend(o) => (s[|s| - 1 := Top(s) - {o}], Get(Top(s), o))
    case Read(d, o) => (s, Get(s[|s| - 1 - d], o))
    case Evict(_, _) => (s, None)
    case WriteBack(d) => (s[|s| - 2 - d := s[|s| - 1 - d]], None)
    case Push => (s + [Top(s)], None)
    case Discard => (s[..|s| - 1], None)
  }

  ghost predicate Shows(v: View, m: map<OutPoint, Coin>) {
    forall o: OutPoint :: Lookup(v, o) == Get(m, o)
  }

  /** Level by level, the cache stack shows the plain maps. */
  ghost predicate Shown(v: View, s: Maps)
    decreases v
  {
    && Shows(v, Top(s))
    && match v
       case Database(_) => |s| == 1
       case Cached(b, _) => |s| > 1 && Shown(b, s[..|s| - 1])
  }

  lemma {:induction false} ShownDepth(v: View, s: Maps)
    requires Shown(v, s)
    ensures |s| == Depth(v) + 1
  {
    if v.Cached? {
      ShownDepth(v.base, s[..|s| - 1]);
    }
  }

  lemma {:induction false} ShownLevel(v: View, s: Maps, d: nat)
    requires Shown(v, s) && Sound(v) && d < |s|
    ensures d <= Depth(v) && Sound(Level(v, d)) && Shown(Level(v, d), s[..|s| - d])
  {
    ShownDepth(v, s);
    if d == 0 {
      assert s[..|s|] == s;
    } else {
      ShownLevel(v.base, s[..|s| - 1], d - 1);
      assert s[..|s| - 1][..|s| - d] == s[..|s| - d];
    }
  }

  lemma {:induction false} SameViewsShown(v: View, w: View, s: Maps)
    requires SameViews(v, w) && Shown(v, s)
    ensures Shown(w, s)
  {
    if v.Cached? {
      SameViewsShown(v.base, w.base, s[..|s| - 1]);
    }
  }

  lemma {:induction false} WithoutTop(t: Maps, s: Maps, n: nat)
    requires n < |s|
    ensures var u := t + s[n..]; u[..|u| - 1] == t + s[..|s| - 1][n..] && Top(u) == Top(s)
  {
    var u := t + s[n..];
    var a, b := u[..|u| - 1], t + s[..|s| - 1][n..];
    assert |a| == |b|;
    forall i | 0 <= i < |a|
      ensures a[i] == b[i]
    {
    }
  }

  /** Replacing a level by one with the same view leaves the caches above it
      sound and their views unchanged. */
  lemma {:induction false} ReplaceShown(v: View, s: Maps, d: nat, w: View, t: Maps)
    requires Sound(v) && Shown(v, s) && d < |s|
    requires d <= Depth(v) && Sound(w) && Shown(w, t)
    requires |t| == |s| - d && Top(t) == s[|s| - 1 - d]
    ensures Sound(Replace(v, d, w)) && Shown(Replace(v, d, w), t + s[|s| - d..])
    ensures SameLookups(v, Replace(v, d, w))
  {
    if d == 0 {
      assert t + s[|s|..] == t;
    } else {
      var r := s[..|s| - 1];
      ReplaceShown(v.base, r, d - 1, w, t);
      WithoutTop(t, s, |s| - d);
      assert SameLookups(v, Replace(v, d, w));
    }
  }

  lemma {:induction false} ReadStep(v: View, s: Maps, d: nat, w: View)
    requires Sound(v) && Shown(v, s) && d < |s| && d <= Depth(v)
    requires SameViews(Level(v, d), w) && Sound(w)
    ensures Sound(Replace(v, d, w)) && Shown(Replace(v, d, w), s)
  {
    ShownLevel(v, s, d);
    SameViewsShown(Level(v, d), w, s[..|s| - d]);
    ReplaceShown(v, s, d, w, s[..|s| - d]);
    assert s[..|s| - d] + s[|s| - d..] == s;
  }

  lemma {:induction false} FlushStep(v: View, s: Maps, d: nat)
    requires Sound(v) && Shown(v, s) && d + 1 < |s| && d < Depth(v)
    ensures !BatchThrows(Level(v, d).base, Level(v, d).cache)
    ensures Sound(Replace(v, d, Flush(Level(v, d))))
    ensures Shown(Replace(v, d, Flush(Level(v, d))), s[|s| - 2 - d := s[|s| - 1 - d]])
  {
    ShownLevel(v, s, d);
    var l, u := Level(v, d), s[..|s| - d];
    FlushPushesDown(l);
    var t := u[|u| - 2 := Top(u)];
    assert t[..|t| - 1][..|t| - 2] == u[..|u| - 1][..|u| - 2];
    assert Shown(Flush(l), t);
    ReplaceShown(v, s, d, Flush(l), t);
    Pushed(s, |s| - d);
  }

  /** The two highest of the first `n` maps made equal, in place. */
  lemma {:induction false} Pushed(s: Maps, n: nat)
    requires 2 <= n <= |s|
    ensures s[..n][n - 2 := Top(s[..n])] + s[n..] == s[n - 2 := s[n - 1]]
  {
    var a, b := s[..n][n - 2 := Top(s[..n])] + s[n..], s[n - 2 := s[n - 1]];
    assert |a| == |b|;
    forall i | 0 <= i < |a|
      ensures a[i] == b[i]
    {
    }
  }

  lemma {:induction false} TopStep(v: View, w: View, s: Maps, m: map<OutPoint, Coin>)
    requires v.Cached? && w.Cached? && Shown(v, s) && SameViews(v.base, w.base) && Shows(w, m)
    ensures Shown(w, s[|s| - 1 := m])
  {
    var t := s[|s| - 1 := m];
    assert t[..|t| - 1] == s[..|s| - 1];
    SameViewsShown(v.base, w.base, t[..|t| - 1]);
  }

  /** One operation: no error is raised, the flags stay sound, the caller gets
      the same coin and every level shows the same map. */
  lemma {:induction false} StepRefinesMaps(v: View, s: Maps, op: Op)
    requires Sound(v) && Shown(v, s) && Allowed(s, op)
    ensures Applicable(v, op) && !StepThrows(v, op)
    ensures Sound(Step(v, op).0) && Shown(Step(v, op).0, MapStep(s, op).0)
    ensures Step(v, op).1 == MapStep(s, op).1
  {
    ShownDepth(v, s);
    match op
    case Add(o, coin, overwrite) =>
      AddCoinAdds(v, o, coin, overwrite);
      SameViewsRefl(v.base);
      if !coin.IsUnspendable() {
        TopStep(v, AddCoin(v, o, coin, overwrite), s, Top(s)[o := coin]);
      }
    case Spend(o) =>
      FetchKeepsViews(v, o);
      SpendCoinRemoves(v, o);
      TopStep(v, SpendCoin(v, o), s, Top(s) - {o});
    case Read(d, o) =>
      ShownLevel(v, s, d);
      GetCoinKeepsViews(Level(v, d), o);
      ReadStep(v, s, d, GetCoin(Level(v, d), o).0);
      assert Lookup(Level(v, d), o) == Get(s[|s| - 1 - d], o);
    case Evict(d, o) =>
      ShownLevel(v, s, d);
      UncacheKeepsViews(Level(v, d), o);
      ReadStep(v, s, d, Uncache(Level(v, d), o));
    case WriteBack(d) => FlushStep(v, s, d);
    case Push => assert (s + [Top(s)])[..|s|] == s;
    case Discard =>
  }

  function MapRun(s: Maps, ops: seq<Op>): (Maps, seq<Option<Coin>>)
    requires AllowedRun(s, ops)
    decreases |ops|
  {
    if ops == [] then (s, [])
    else
      var (t, out) := MapStep(s, ops[0]);
      var (u, outs) := MapRun(t, ops[1..]);
      (u, [out] + outs)
  }

  predicate AllowedRun(s: Maps, ops: seq<Op>)
    decreases |ops|
  {
    ops != [] ==> Allowed(s, ops[0]) && AllowedRun(MapStep(s, ops[0]).0, ops[1..])
  }

  datatype Outcome = Threw | Finished(view: View, outputs: seq<Option<Coin>>)

  /** Runs the cache stack until the end or the first error. */
  function Run(v: View, ops: seq<Op>): Outcome
    decreases |ops|
  {
    if ops == [] then Finished(v, [])
    else if !Applicable(v, ops[0]) || StepThrows(v, ops[0]) then Threw
    else
      var (w, out) := Step(v, ops[0]);
      match Run(w, ops[1..])
      case Threw => Threw
      case Finished(u, outs) => Finished(u, [out] + outs)
  }

  lemma {:induction false} RunRefinesMaps(v: View, s: Maps, ops: seq<Op>)
    requires Sound(v) && Shown(v, s) && AllowedRun(s, ops)
    ensures Run(v, ops).Finished?
    ensures Sound(Run(v, ops).view) && Shown(Run(v, ops).view, MapRun(s, ops).0)
    ensures Run(v, ops).outputs == MapRun(s, ops).1
    decreases |ops|
  {
    if ops != [] {
      StepRefinesMaps(v, s, ops[0]);
      RunRefinesMaps(Step(v, ops[0]).0, MapStep(s, ops[0]).0, ops[1..]);
    }
  }

  // ----- what the flags save: nothing is kept or written that need not be

  /** A coin that is only read is never written back: with or without it in the
      cache, a flush leaves the same in any base. */
  lemma {:induction false} ReadNotWritten(v: View, o: OutPoint, b: View)
    requires v.Cached?
    ensures BatchWrite(b, Fetch(v, o).cache) == BatchWrite(b, v.cache)
  {
    var c, d := Fetch(v, o).cache, v.cache;
    if b.Cached? {
      forall p: OutPoint
        ensures Get(MergeCache(b.cache, c), p) == Get(MergeCache(b.cache, d), p)
      {
        assert p != o ==> Get(c, p) == Get(d, p);
      }
      MapsEqual(MergeCache(b.cache, c), MergeCache(b.cache, d));
    } else {
      forall p: OutPoint
        ensures Get(MergeDatabase(b.coins, c), p) == Get(MergeDatabase(b.coins, d), p)
      {
        assert p != o ==> Get(c, p) == Get(d, p);
      }
      MapsEqual(MergeDatabase(b.coins, c), MergeDatabase(b.coins, d));
    }
  }

  /** A modified coin that is spent, and that the base never had. */
  predicate Useless(e: Entry) {
    e.isDirty && e.isFresh && e.coin.IsSpent()
  }

  ghost predicate Lean(v: View) {
    v.Cached? ==> Lean(v.base) && forall o | o in v.cache :: !Useless(v.cache[o])
  }

  lemma {:induction false} FetchLean(v: View, o: OutPoint)
    requires v.Cached? && Lean(v)
    ensures Lean(Fetch(v, o))
    decreases v, 0
  {
    if o !in v.cache {
      GetCoinLean(v.base, o);
    }
  }

  lemma {:induction false} GetCoinLean(v: View, o: OutPoint)
    requires Lean(v)
    ensures Lean(GetCoin(v, o).0)
    decreases v, 1
  {
    if v.Cached? {
      FetchLean(v, o);
    }
  }

  /** Whatever is written into it, a cache keeps no useless entry. */
  lemma {:induction false} BatchWriteLean(v: View, child: CoinsMap)
    requires Lean(v)
    ensures Lean(BatchWrite(v, child))
  {
    if v.Cached? {
      var c := MergeCache(v.cache, child);
      forall o | o in c
        ensures !Useless(c[o])
      {
        assert Get(c, o) == MergeEntry(Get(child, o), Get(v.cache, o));
      }
    }
  }

  lemma {:induction false} LevelLean(v: View, d: nat, w: View)
    requires Lean(v) && d <= Depth(v)
    ensures Lean(Level(v, d))
    ensures Lean(w) ==> Lean(Replace(v, d, w))
  {
    if d > 0 {
      LevelLean(v.base, d - 1, w);
    }
  }

  lemma {:induction false} StepLean(v: View, op: Op)
    requires Lean(v) && Applicable(v, op) && (op.Add? ==> !op.coin.IsSpent())
    ensures Lean(Step(v, op).0)
  {
    match op
    case Add(_, _, _) =>
    case Spend(o) => FetchLean(v, o);
    case Read(d, o) =>
      var w := GetCoin(Level(v, d), o).0;
      LevelLean(v, d, w);
      GetCoinLean(Level(v, d), o);
    case Evict(d, o) => LevelLean(v, d, Uncache(Level(v, d), o));
    case WriteBack(d) =>
      var l := Level(v, d);
      LevelLean(v, d, Flush(l));
      BatchWriteLean(l.base, l.cache);
    case Push =>
    case Discard =>
  }

  /** No run ever leaves, at any level, a useless entry. */
  lemma {:induction false} RunLean(v: View, ops: seq<Op>)
    requires Lean(v) && forall i | 0 <= i < |ops| :: ops[i].Add? ==> !ops[i].coin.IsSpent()
    ensures Run(v, ops).Finished? ==> Lean(Run(v, ops).view)
    decreases |ops|
  {
    if ops != [] && Applicable(v, ops[0]) {
      StepLean(v, ops[0]);
      RunLean(Step(v, ops[0]).0, ops[1..]);
    }
  }

  /** Every run may start from a bare database, whatever it holds. */
  lemma {:induction false} DatabaseStarts(m: map<OutPoint, Coin>)
    ensures Sound(Database(m)) && Shown(Database(m), [map o | o in m && !m[o].IsSpent() :: m[o]])
  {
  }

  /** The promise in `AddAllowed` is exactly what AddCoin needs: an unpromised
      coin held only by the base goes unseen, FRESH is set wrongly, and spending
      the new coin lets the old one reappear. */
  lemma {:induction false} AddSoundIffPromised(v: View, o: OutPoint, coin: Coin, overwrite: bool)
    requires v.Cached? && Sound(v) && !coin.IsSpent() && !Unspendable(coin.out.script)
    requires !AddThrows(v, o, coin, overwrite)
    ensures Sound(AddCoin(v, o, coin, overwrite)) <==> overwrite || Lookup(v, o) == None
    ensures !(overwrite || Lookup(v, o) == None) ==>
              Lookup(SpendCoin(AddCoin(v, o, coin, overwrite), o), o) == Lookup(v, o)
  {
    var w := AddCoin(v, o, coin, overwrite);
    if overwrite || Lookup(v, o) == None {
      AddCoinAdds(v, o, coin, overwrite);
    } else {
      assert o !in v.cache;
      assert !EntrySound(w.cache[o], Lookup(w.base, o));
    }
  }

  /** FRESH set wrongly, on an empty cache over one stored coin: the new coin is
      shown, and once it is spent the stored one is back. */
  lemma {:induction false} FreshExample(o: OutPoint)
    ensures var stored, coin := Coin(TxOut(1, []), false, 1), Coin(TxOut(2, []), false, 2);
            var v := Cached(Database(map[o := stored]), map[]);
            var w := AddCoin(v, o, coin, false);
            && Sound(v) && Lookup(v, o) == Some(stored) && !AddThrows(v, o, coin, false)
            && Lookup(w, o) == Some(coin) && !Sound(w)
            && Lookup(SpendCoin(w, o), o) == Some(stored)
  {
    var stored, coin := Coin(TxOut(1, []), false, 1), Coin(TxOut(2, []), false, 2);
    AddSoundIffPromised(Cached(Database(map[o := stored]), map[]), o, coin, false);
  }

  lemma {:induction false} MapsEqual<K(!new), V>(m: map<K, V>, n: map<K, V>)
    requires forall k: K :: Get(m, k) == Get(n, k)
    ensures m == n
  {
    forall k: K
      ensures k in m <==> k in n
      ensures k in m ==> m[k] == n[k]
    {
      assert Get(m, k) == Get(n, k);
    }
  }
}
