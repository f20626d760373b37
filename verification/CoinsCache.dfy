/**
  The coin views as objects that update their caches in place, even while
  reading (src/coins.cpp).  Each method is proved against the function of the
  same name in module `Coins`.
 */
module CoinsCache {
  import opened Common
  import opened Coins

  /** One object of the stack.  With no base it stands for the database and uses
      `coins`; otherwise it is a cache and uses `cacheCoins`. */
  class CoinsView {
    var base: CoinsView?
    var coins: map<OutPoint, Coin>
    var cacheCoins: CoinsMap
    ghost var Repr: set<CoinsView>

    ghost predicate Valid()
      reads this, Repr
      decreases Repr
    {
      && this in Repr
      && (base != null ==> base in Repr && base.Repr <= Repr && this !in base.Repr && base.Valid())
    }

    /** The value of the stack that starts at this object. */
    ghost function Model(): View
      requires Valid()
      reads this, Repr
      decreases Repr
    {
      if base == null then Database(coins) else Cached(base.Model(), cacheCoins)
    }

    constructor Db(m: map<OutPoint, Coin>)
      ensures Valid() && fresh(Repr) && Model() == Database(m)
    {
      base, coins, cacheCoins, Repr := null, m, map[], {this};
    }

    constructor Over(b: CoinsView)
      requires b.Valid()
      ensures Valid() && Repr == {this} + b.Repr && Model() == Cached(b.Model(), map[])
    {
      base, coins, cacheCoins, Repr := b, map[], map[], {this} + b.Repr;
    }

    method FetchCoin(o: OutPoint) returns (found: Option<Entry>)
      requires Valid() && base != null
      modifies Repr
      ensures Valid() && Repr == old(Repr) && base == old(base)
      ensures Model() == Fetch(old(Model()), o)
      ensures found == Get(cacheCoins, o)
      decreases Repr, 0
    {
      if o in cacheCoins {
        return Some(cacheCoins[o]);
      }
      var tmp := base.GetCoin(o);
      if tmp == None {
        return None;
      }
      cacheCoins := cacheCoins[o := Entry(tmp.value, false, tmp.value.IsSpent())];
      return Some(cacheCoins[o]);
    }

    method GetCoin(o: OutPoint) returns (coin: Option<Coin>)
      requires Valid()
      modifies Repr
      ensures Valid() && Repr == old(Repr) && base == old(base)
      ensures (Model(), coin) == Coins.GetCoin(old(Model()), o)
      decreases Repr, 1
    {
      if base == null {
        return Get(coins, o);
      }
      var it := FetchCoin(o);
      match it
      case None => return None;
      case Some(e) => return Unspent(e.coin);
    }

    method AddCoin(o: OutPoint, coin: Coin, overwrite: bool) returns (threw: bool)
      requires Valid() && base != null && !coin.IsSpent()
      modifies this
      ensures Valid() && Repr == old(Repr) && base == old(base)
      ensures threw == AddThrows(old(Model()), o, coin, overwrite)
      ensures Model() == Coins.AddCoin(old(Model()), o, coin, overwrite)
    {
      if coin.IsUnspendable() {
        return false;
      }
      var entry := if o in cacheCoins then cacheCoins[o] else Entry(EMPTY_COIN, false, false);
      var first := false;
      if !overwrite {
        if !entry.coin.IsSpent() {
          return true;
        }
        first := !entry.isDirty;
      }
      cacheCoins := cacheCoins[o := Entry(coin, true, entry.isFresh || first)];
      return false;
    }

    method SpendCoin(o: OutPoint) returns (ok: bool, moveout: Option<Coin>)
      requires Valid() && base != null
      modifies Repr
      ensures Valid() && Repr == old(Repr) && base == old(base)
      ensures Model() == Coins.SpendCoin(old(Model()), o)
      ensures ok == (o in Fetch(old(Model()), o).cache)
      ensures ok ==> moveout == Some(Fetch(old(Model()), o).cache[o].coin)
    {
      var it := FetchCoin(o);
      if it == None {
        return false, None;
      }
      if it.value.isFresh {
        cacheCoins := cacheCoins - {o};
      } else {
        cacheCoins := cacheCoins[o := Entry(EMPTY_COIN, true, false)];
      }
      return true, Some(it.value.coin);
    }

    method Uncache(o: OutPoint)
      requires Valid() && base != null
      modifies this
      ensures Valid() && Repr == old(Repr) && base == old(base)
      ensures Model() == Coins.Uncache(old(Model()), o)
    {
      if o in cacheCoins && !cacheCoins[o].isDirty && !cacheCoins[o].isFresh {
        cacheCoins := cacheCoins - {o};
      }
    }

    method BatchWrite(mapCoins: CoinsMap) returns (threw: bool)
      requires Valid()
      modifies this
      ensures Valid() && Repr == old(Repr) && base == old(base)
      ensures threw == BatchThrows(old(Model()), mapCoins)
      ensures !threw ==> Model() == Coins.BatchWrite(old(Model()), mapCoins)
    {
      threw := false;
      if base == null {
        WriteDatabase(mapCoins);
      } else {
        threw := WriteCache(mapCoins);
      }
    }

    method WriteEntry(o: OutPoint, it: Entry) returns (threw: bool)
      modifies this`cacheCoins
      ensures threw == (o in old(cacheCoins) && Misapplied(it, old(cacheCoins)[o]))
      ensures !threw ==> forall p: OutPoint :: Get(cacheCoins, p) ==
                           if p == o then MergeEntry(Some(it), Get(old(cacheCoins), o))
                           else Get(old(cacheCoins), p)
    {
      if !it.isDirty {
        return false;
      }
      if o !in cacheCoins {
        if !(it.isFresh && it.coin.IsSpent()) {
          cacheCoins := cacheCoins[o := Entry(it.coin, true, it.isFresh)];
        }
        return false;
      }
      var itUs := cacheCoins[o];
      if it.isFresh && !itUs.coin.IsSpent() {
        return true;
      }
      if itUs.isFresh && it.coin.IsSpent() {
        cacheCoins := cacheCoins - {o};
      } else {
        cacheCoins := cacheCoins[o := Entry(it.coin, true, itUs.isFresh)];
      }
      return false;
    }

    /** Takes the child's entries in any order; the result does not depend on
        it.  Stops at the first misapplied flag. */
    method WriteCache(mapCoins: CoinsMap) returns (threw: bool)
      modifies this`cacheCoins
      ensures threw == exists o | o in mapCoins :: o in old(cacheCoins) && Misapplied(mapCoins[o], old(cacheCoins)[o])
      ensures !threw ==> cacheCoins == MergeCache(old(cacheCoins), mapCoins)
    {
      ghost var us := cacheCoins;
      var left := mapCoins;
      while left != map[]
        invariant left.Keys <= mapCoins.Keys
        invariant forall o | o in left :: left[o] == mapCoins[o] && Get(cacheCoins, o) == Get(us, o)
        invariant forall o: OutPoint | o !in left ::
                    Get(cacheCoins, o) == MergeEntry(Get(mapCoins, o), Get(us, o))
        invariant forall o | o in mapCoins && o !in left && o in us :: !Misapplied(mapCoins[o], us[o])
        decreases |left|
      {
        var o :| o in left;
        var bad := WriteEntry(o, left[o]);
        if bad {
          return true;
        }
        left := left - {o};
      }
      MapsEqual(cacheCoins, MergeCache(us, mapCoins));
      return false;
    }

    method WriteDatabase(mapCoins: CoinsMap)
      requires Valid() && base == null
      modifies this`coins
      ensures coins == MergeDatabase(old(coins), mapCoins)
    {
      var left := mapCoins;
      while left != map[]
        invariant left.Keys <= mapCoins.Keys
        invariant forall o | o in left :: left[o] == mapCoins[o] && Get(coins, o) == Get(old(coins), o)
        invariant forall o: OutPoint | o !in left ::
                    Get(coins, o) == MergeCoin(Get(mapCoins, o), Get(old(coins), o))
        decreases |left|
      {
        var o :| o in left;
        if left[o].isDirty {
          coins := if left[o].coin.IsSpent() then coins - {o} else coins[o := left[o].coin];
        }
        left := left - {o};
      }
      MapsEqual(coins, MergeDatabase(old(coins), mapCoins));
    }

    /** Throws where BatchWrite of the base does, which a sound stack never does. */
    method Flush() returns (threw: bool)
      requires Valid() && base != null
      modifies Repr
      ensures Valid() && Repr == old(Repr) && base == old(base)
      ensures threw == BatchThrows(old(Model()).base, old(Model()).cache)
      ensures !threw ==> Model() == Coins.Flush(old(Model()))
      ensures old(Sound(Model())) ==>
                !threw && Sound(Model()) &&
                SameLookups(Model(), old(Model())) && SameLookups(base.Model(), old(Model()))
    {
      if Sound(Model()) {
        FlushPushesDown(Model());
      }
      threw := base.BatchWrite(cacheCoins);
      if !threw {
        cacheCoins := map[];
      }
    }
  }
}
