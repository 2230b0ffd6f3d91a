/**
  The store as a value. `Items` is what a node holds; `View` adds the recency order used for
  eviction, most recent first. `Store` refines these functions; the protocols use them as the
  effect of one critical section.
 */
module StoreSpec {
  import opened Lists
  import opened Expiry

  datatype Item = Item(value: string, expiresAt: Time, version: int)

  type Items = map<string, Item>

  predicate Live(m: Items, key: string, now: Time) {
    key in m && !Expired(m[key].expiresAt, now)
  }

  /** `GetWithVersion`: a copy that has expired counts as absent although it is still stored. */
  function Fetch(m: Items, key: string, now: Time): Option<Item> {
    if Live(m, key, now) then Some(m[key]) else None
  }

  /** Before the floor of its expiry no transferred copy of the item can have expired. */
  predicate Current(item: Item, now: Time) {
    item.expiresAt == NEVER || now < Floor(item.expiresAt)
  }

  /** An item is current exactly while neither it nor any copy of it, however often transferred, has expired. */
  lemma CurrentIff(item: Item, now: Time)
    requires item.expiresAt == NEVER || item.expiresAt >= MILLI
    ensures Current(item, now) <==> forall n: nat :: !Expired(Hops(item.expiresAt, n), now)
  {
    var t := item.expiresAt;
    if Current(item, now) {
      forall n: nat ensures !Expired(Hops(t, n), now) {
        ChainAliveBeforeFloor(t, n, now);
      }
    } else {
      HopIsFloor(t);
      assert t / MILLI >= 1;
      ChainSettlesAfterOneHop(t, 1);
      assert Expired(Hops(t, 1), now);
    }
  }

  function LiveKeys(m: Items, now: Time): set<string> {
    set k | k in m && Live(m, k, now)
  }

  function Deadline(ttl: int, now: Time): Time {
    if ttl > 0 then now + ttl else NEVER
  }

  /** The item `Set` and `SetWithExpiry` store: one version above a copy that is present, expired or not. */
  function NextItem(m: Items, key: string, value: string, expiresAt: Time): Item {
    Item(value, expiresAt, if key in m then m[key].version + 1 else 1)
  }

  /** A copy as another node receives it. */
  function Relayed(copy: Item): Item {
    copy.(expiresAt := Hop(copy.expiresAt))
  }

  function Written(m: Items, key: string, value: string, expiresAt: Time): Items {
    m[key := NextItem(m, key, value, expiresAt)]
  }

  /** `SetVersion` does not overwrite a copy at the same or a newer version. */
  predicate Refuses(m: Items, key: string, version: int) {
    key in m && m[key].version >= version
  }

  function Versioned(m: Items, key: string, item: Item): Items {
    if Refuses(m, key, item.version) then m else m[key := item]
  }

  /** Every key but this one is as before. */
  ghost predicate OthersStay(before: Items, after: Items, key: string) {
    forall k | k != key :: (k in after <==> k in before) && (k in before ==> after[k] == before[k])
  }

  /** The key has this copy now, or still the one it had at the same or a newer version; other keys are as before. */
  ghost predicate TakesNewer(before: Items, after: Items, key: string, item: Item) {
    && key in after && OthersStay(before, after, key)
    && after[key] == if key in before && before[key].version >= item.version then before[key] else item
  }

  /** The key has this value and expiry now, one version above the copy it had; other keys are as before. */
  ghost predicate TakesNext(before: Items, after: Items, key: string, value: string, expiresAt: Time) {
    && key in after && OthersStay(before, after, key)
    && after[key] == Item(value, expiresAt, if key in before then before[key].version + 1 else 1)
  }

  lemma WrittenTakesNext(m: Items, key: string, value: string, expiresAt: Time)
    ensures TakesNext(m, Written(m, key, value, expiresAt), key, value, expiresAt)
  {
  }

  lemma VersionedTakesNewer(m: Items, key: string, item: Item)
    ensures TakesNewer(m, Versioned(m, key, item), key, item)
  {
  }

  /** The slow path of `Get`: delete the key if its copy has expired. */
  function Reaped(m: Items, key: string, now: Time): Items {
    if key in m && !Live(m, key, now) then m - {key} else m
  }

  function Swept(m: Items, now: Time): Items {
    map k | k in m && Live(m, k, now) :: m[k]
  }

  // ---------- Memory accounting ----------

  function Size(key: string, item: Item): nat {
    |key| + |item.value|
  }

  /** The summed size of all items. */
  ghost function Weight(m: Items): nat {
    if m == map[] then 0 else
      var k :| k in m;
      Size(k, m[k]) + Weight(m - {k})
  }

  lemma {:induction false} WeightWithout(m: Items, key: string)
    requires key in m
    ensures Weight(m) == Size(key, m[key]) + Weight(m - {key}) && Size(key, m[key]) == |key| + |m[key].value|
    decreases |m|
  {
    var k :| k in m && Weight(m) == Size(k, m[k]) + Weight(m - {k});
    if k != key {
      assert |m - {k}| < |m|;
      assert |m - {key}| < |m|;
      WeightWithout(m - {k}, key);
      WeightWithout(m - {key}, k);
      assert m - {k} - {key} == m - {key} - {k};
    }
  }

  lemma WeightUpdate(m: Items, key: string, item: Item)
    ensures Weight(m[key := item]) == Weight(m - {key}) + Size(key, item)
    ensures key !in m ==> m - {key} == m
  {
    WeightWithout(m[key := item], key);
    assert m[key := item] - {key} == m - {key};
  }

  // ---------- Recency ----------

  datatype View = View(items: Items, order: seq<string>)

  /** `tracked`: the store has a recency list; without one it never evicts. */
  datatype Config = Config(tracked: bool, cap: int) {
    predicate Evicts() { tracked && cap > 0 }
  }

  ghost predicate Enumerates(order: seq<string>, m: Items) {
    Distinct(order) && forall k :: k in order <==> k in m
  }

  /** What every operation keeps: list and map hold the same keys, and usage respects the cap. */
  ghost predicate Sound(c: Config, v: View) {
    && (c.tracked ==> Enumerates(v.order, v.items))
    && (!c.tracked ==> v.order == [])
    && (c.Evicts() ==> Weight(v.items) <= c.cap)
  }

  function Only(m: Items, keys: seq<string>): Items {
    map k | k in m && k in keys :: m[k]
  }

  /** The summed size of the items named by `order`. */
  function Total(m: Items, order: seq<string>): nat
    requires forall k <- order :: k in m
  {
    if order == [] then 0
    else
      var last := order[|order| - 1];
      Total(m, order[..|order| - 1]) + Size(last, m[last])
  }

  lemma {:induction false} TotalIsWeight(m: Items, order: seq<string>)
    requires Distinct(order) && forall k <- order :: k in m
    ensures Total(m, order) == Weight(Only(m, order))
  {
    if order == [] {
      assert Only(m, order) == map[];
    } else {
      var init, last := order[..|order| - 1], order[|order| - 1];
      TotalIsWeight(m, init);
      OnlyInit(m, order);
      WeightWithout(Only(m, order), last);
    }
  }

  lemma OnlyInit(m: Items, order: seq<string>)
    requires order != [] && Distinct(order) && forall k <- order :: k in m
    ensures order[|order| - 1] in Only(m, order)
    ensures Only(m, order) - {order[|order| - 1]} == Only(m, order[..|order| - 1])
  {
    var init, last := order[..|order| - 1], order[|order| - 1];
    assert order == init + [last];
    assert last !in init;
  }

  lemma {:induction false} TotalGrows(m: Items, order: seq<string>, i: nat, j: nat)
    requires i <= j <= |order| && forall k <- order :: k in m
    ensures Total(m, order[..i]) <= Total(m, order[..j])
    decreases j - i
  {
    if i < j {
      TotalGrows(m, order, i, j - 1);
      assert order[..j][..j - 1] == order[..j - 1];
    }
  }

  /** How many of the most recent keys fit the cap together. */
  function Fitting(m: Items, order: seq<string>, cap: nat): (n: nat)
    requires forall k <- order :: k in m
    ensures n <= |order| && Total(m, order[..n]) <= cap
    ensures n < |order| ==> Total(m, order[..n + 1]) > cap
    decreases |order|
  {
    assert order[..|order|] == order;
    if Total(m, order) <= cap then |order|
    else
      var init := order[..|order| - 1];
      var n := Fitting(m, init, cap);
      assert init[..n] == order[..n];
      assert n < |init| ==> init[..n + 1] == order[..n + 1];
      assert n == |init| ==> order[..n + 1] == order;
      n
  }

  /** The kept prefix is the longest one that fits: no shorter and no longer prefix has both properties. */
  lemma FittingIsLongest(m: Items, order: seq<string>, cap: nat, n: nat)
    requires forall k <- order :: k in m
    requires n <= |order|
    ensures n == Fitting(m, order, cap) <==>
            Total(m, order[..n]) <= cap && forall j :: n < j <= |order| ==> Total(m, order[..j]) > cap
  {
    var f := Fitting(m, order, cap);
    forall j | f < j <= |order| ensures Total(m, order[..j]) > cap {
      TotalGrows(m, order, f + 1, j);
    }
  }

  /** Eviction: drop least recent keys until the rest fits. */
  function Trim(c: Config, v: View): View
    requires c.tracked ==> forall k <- v.order :: k in v.items
  {
    if !c.Evicts() then v else
      var kept := v.order[..Fitting(v.items, v.order, c.cap)];
      View(Only(v.items, kept), kept)
  }

  function ToFront(order: seq<string>, key: string): seq<string> {
    [key] + Without(order, key)
  }

  /** Every write: store the item, make its key the most recent, evict. */
  function Put(c: Config, v: View, key: string, item: Item): View
    requires c.tracked ==> forall k <- v.order :: k in v.items
  {
    Trim(c, View(v.items[key := item], if c.tracked then ToFront(v.order, key) else v.order))
  }

  function Touch(v: View, key: string): View {
    if key in v.order then v.(order := ToFront(v.order, key)) else v
  }

  function Drop(v: View, key: string): View {
    View(v.items - {key}, Without(v.order, key))
  }

  /** The second critical section of a `Get` that read an expired copy. */
  function Reap(v: View, key: string, now: Time): View {
    if key in v.items && !Live(v.items, key, now) then Drop(v, key) else v
  }

  function OnlyLive(m: Items, order: seq<string>, now: Time): seq<string> {
    if order == [] then []
    else (if Live(m, order[0], now) then [order[0]] else []) + OnlyLive(m, order[1..], now)
  }

  function Sweep(v: View, now: Time): View {
    View(Swept(v.items, now), OnlyLive(v.items, v.order, now))
  }

  // ---------- What operations keep ----------

  lemma EnumeratesToFront(order: seq<string>, m: Items, key: string, item: Item)
    requires Enumerates(order, m)
    ensures Enumerates(ToFront(order, key), m[key := item])
  {
    WithoutKeepsDistinct(order, key);
    ConsDistinct(key, Without(order, key));
  }

  lemma EnumeratesWithout(order: seq<string>, m: Items, key: string)
    requires Enumerates(order, m)
    ensures Enumerates(Without(order, key), m - {key})
  {
    WithoutKeepsDistinct(order, key);
  }

  lemma {:induction false} OnlyLiveKeys(m: Items, order: seq<string>, now: Time)
    ensures forall k :: k in OnlyLive(m, order, now) <==> k in order && Live(m, k, now)
    ensures Distinct(order) ==> Distinct(OnlyLive(m, order, now))
  {
    if order != [] {
      var rest := OnlyLive(m, order[1..], now);
      OnlyLiveKeys(m, order[1..], now);
      if Distinct(order) {
        assert forall i :: 0 <= i < |order[1..]| ==> order[1..][i] == order[i + 1];
        if Live(m, order[0], now) {
          ConsDistinct(order[0], rest);
        }
      }
    }
  }

  lemma TrimSound(c: Config, v: View)
    requires c.tracked ==> Enumerates(v.order, v.items)
    requires !c.tracked ==> v.order == []
    ensures Sound(c, Trim(c, v))
  {
    if c.Evicts() {
      var n := Fitting(v.items, v.order, c.cap);
      var kept := v.order[..n];
      assert forall k <- kept :: k in v.order;
      TotalIsWeight(v.items, kept);
    }
  }

  lemma PutSound(c: Config, v: View, key: string, item: Item)
    requires Sound(c, v)
    ensures Sound(c, Put(c, v, key, item))
  {
    if c.tracked {
      EnumeratesToFront(v.order, v.items, key, item);
    }
    TrimSound(c, View(v.items[key := item], if c.tracked then ToFront(v.order, key) else v.order));
  }

  lemma {:induction false} WeightShrinks(part: Items, m: Items)
    requires part.Keys <= m.Keys && forall k <- part :: part[k] == m[k]
    ensures Weight(part) <= Weight(m)
    decreases |m|
  {
    if m == map[] {
      assert part == map[];
    } else {
      var k :| k in m;
      assert |m - {k}| < |m|;
      WeightWithout(m, k);
      if k in part {
        WeightWithout(part, k);
        WeightShrinks(part - {k}, m - {k});
      } else {
        WeightShrinks(part, m - {k});
      }
    }
  }

  lemma DropSound(c: Config, v: View, key: string)
    requires Sound(c, v)
    ensures Sound(c, Drop(v, key))
  {
    if c.tracked {
      EnumeratesWithout(v.order, v.items, key);
    }
    WeightShrinks(v.items - {key}, v.items);
  }

  lemma TouchSound(c: Config, v: View, key: string)
    requires Sound(c, v)
    ensures Sound(c, Touch(v, key))
  {
    if key in v.order {
      EnumeratesToFront(v.order, v.items, key, v.items[key]);
      assert v.items[key := v.items[key]] == v.items;
    }
  }

  lemma SweepSound(c: Config, v: View, now: Time)
    requires Sound(c, v)
    ensures Sound(c, Sweep(v, now))
  {
    OnlyLiveKeys(v.items, v.order, now);
    WeightShrinks(Swept(v.items, now), v.items);
  }

  /** The key just written survives exactly when its own size fits the cap. */
  lemma WrittenSurvivesIff(c: Config, v: View, key: string, item: Item)
    requires Sound(c, v)
    ensures key in Put(c, v, key, item).items <==> !c.Evicts() || Size(key, item) <= c.cap
    ensures key in Put(c, v, key, item).items ==> Put(c, v, key, item).items[key] == item
  {
    if c.Evicts() {
      var m, order := v.items[key := item], ToFront(v.order, key);
      var n := Fitting(m, order, c.cap);
      assert order[..1] == [key];
      assert Total(m, [key]) == Size(key, item) by {
        assert [key][..0] == [];
      }
      if n > 0 {
        TotalGrows(m, order, 1, n);
        assert order[..n][0] == key;
      } else {
        assert order[..n] == [];
      }
    }
  }

  /**
    What a write does: the item is kept unless a store that evicts has no room for it alone, the other keys keep
    their copies or are evicted, and without a cap none is.
   */
  ghost predicate Stores(c: Config, before: Items, after: Items, key: string, item: Item) {
    && (key in after <==> !(c.tracked && c.cap > 0) || |key| + |item.value| <= c.cap)
    && (key in after ==> after[key] == item)
    && (forall k <- after | k != key :: k in before && after[k] == before[k])
    && (!(c.tracked && c.cap > 0) ==> OthersStay(before, after, key))
  }

  lemma PutStores(c: Config, v: View, key: string, item: Item)
    requires Sound(c, v)
    ensures Stores(c, v.items, Put(c, v, key, item).items, key, item)
    ensures c.tracked ==> Put(c, v, key, item).order <= [key] + Without(v.order, key)
  {
    WrittenSurvivesIff(c, v, key, item);
  }

  /** The most recent keys stay, and the first of those evicted would no longer have fitted the cap. */
  ghost predicate EvictsLast(c: Config, before: View, after: View, key: string, item: Item) {
    var all, n, m := [key] + Without(before.order, key), |after.order|, before.items[key := item];
    && n <= |all| && after.order == all[..n]
    && (n < |all| ==> all[n] in m && Weight(after.items) + |all[n]| + |m[all[n]].value| > c.cap)
  }

  lemma TotalNext(m: Items, order: seq<string>, n: nat)
    requires n < |order| && forall k <- order :: k in m
    ensures Total(m, order[..n + 1]) == Total(m, order[..n]) + |order[n]| + |m[order[n]].value|
  {
    assert order[..n + 1][..n] == order[..n];
  }

  lemma PutEvictsLast(c: Config, v: View, key: string, item: Item)
    requires Sound(c, v) && c.Evicts()
    ensures EvictsLast(c, v, Put(c, v, key, item), key, item)
  {
    var m, all, w := v.items[key := item], ToFront(v.order, key), Put(c, v, key, item);
    var n := |w.order|;
    EnumeratesToFront(v.order, v.items, key, item);
    TotalIsWeight(m, all[..n]);
    if n < |all| {
      TotalNext(m, all, n);
    }
  }
}
