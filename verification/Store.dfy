/** The store as the server uses it: a mutable object whose critical sections refine `StoreSpec`. */
module Store {
  import opened Lists
  import opened Expiry
  import opened StoreSpec

  /** An element of the recency list. Elements are compared by identity, not by key. */
  class Element {
    const key: string

    constructor (key: string)
      ensures this.key == key
    {
      this.key := key;
    }
  }

  datatype Entry = Entry(item: Item, size: int, element: Element?)

  /** What the read-locked half of `Get` found. */
  datatype Reading = Missing | Stale | Hit(value: string, element: Element?)

  function KeysOf(l: seq<Element>): (keys: seq<string>)
    ensures |keys| == |l| && forall i :: 0 <= i < |l| ==> keys[i] == l[i].key
  {
    if l == [] then [] else [l[0].key] + KeysOf(l[1..])
  }

  /** The list without element `e`. */
  function Unlink(l: seq<Element>, e: Element): seq<Element> {
    if l == [] then [] else if l[0] == e then l[1..] else [l[0]] + Unlink(l[1..], e)
  }

  lemma {:induction false} UnlinkMembers(l: seq<Element>, e: Element)
    requires e in l && Distinct(KeysOf(l))
    ensures forall x <- Unlink(l, e) :: x in l && x.key != e.key
  {
    var rest := l[1..];
    assert KeysOf(l) == [l[0].key] + KeysOf(rest);
    DistinctTail(l[0].key, KeysOf(rest));
    if l[0] == e {
      forall x <- rest ensures x in l && x.key != e.key {
        var i :| 0 <= i < |rest| && rest[i] == x;
        assert KeysOf(rest)[i] == x.key && l[i + 1] == x;
      }
    } else {
      assert e in rest;
      UnlinkMembers(rest, e);
      var i :| 0 <= i < |rest| && rest[i] == e;
      assert KeysOf(rest)[i] == e.key;
    }
  }

  lemma {:induction false} UnlinkKeys(l: seq<Element>, e: Element)
    requires e in l && Distinct(KeysOf(l))
    ensures KeysOf(Unlink(l, e)) == Without(KeysOf(l), e.key)
  {
    var rest, keys := l[1..], KeysOf(l[1..]);
    assert KeysOf(l) == [l[0].key] + keys;
    DistinctTail(l[0].key, keys);
    if l[0] == e {
      WithoutAbsent(keys, e.key);
      assert Without(KeysOf(l), e.key) == Without(keys, e.key);
    } else {
      assert e in rest;
      UnlinkKeys(rest, e);
      var i :| 0 <= i < |rest| && rest[i] == e;
      assert keys[i] == e.key;
      assert Unlink(l, e)[1..] == Unlink(rest, e);
      assert Without(KeysOf(l), e.key) == [l[0].key] + Without(keys, e.key);
    }
  }

  lemma DistinctTail(x: string, s: seq<string>)
    requires Distinct([x] + s)
    ensures Distinct(s) && x !in s
  {
    var r := [x] + s;
    assert forall i :: 0 <= i < |s| ==> s[i] == r[i + 1];
    assert r[0] == x;
  }

  lemma FittingUnique(m: Items, order: seq<string>, cap: nat, n: nat)
    requires n <= |order| && forall k <- order :: k in m
    requires Total(m, order[..n]) <= cap
    requires n < |order| ==> Total(m, order[..n + 1]) > cap
    ensures n == Fitting(m, order, cap)
  {
    forall j | n < j <= |order| ensures Total(m, order[..j]) > cap {
      TotalGrows(m, order, n + 1, j);
    }
    FittingIsLongest(m, order, cap, n);
  }

  /** Eviction from (`m`, `order`) has gone down to the first `n` keys; so far more than that exceeds the cap. */
  ghost predicate Evicting(m: Items, order: seq<string>, cap: nat, n: nat, left: View) {
    && Enumerates(order, m) && n <= |order|
    && left == StoreSpec.View(Only(m, order[..n]), order[..n])
    && (n < |order| ==> Total(m, order[..n + 1]) > cap)
  }

  lemma EvictingStarts(m: Items, order: seq<string>, cap: nat)
    requires Enumerates(order, m)
    ensures Evicting(m, order, cap, |order|, StoreSpec.View(m, order))
  {
    assert order[..|order|] == order;
    assert Only(m, order) == m;
  }

  lemma EvictingStep(m: Items, order: seq<string>, cap: nat, n: nat, left: View)
    requires Evicting(m, order, cap, n, left) && Weight(left.items) > cap
    ensures n > 0 && |left.order| == n
    ensures Evicting(m, order, cap, n - 1, StoreSpec.View(left.items - {left.order[n - 1]}, left.order[..n - 1]))
  {
    var kept := order[..n];
    TotalIsWeight(m, kept);
    assert kept != [];
    OnlyInit(m, kept);
    TakeTake(order, n);
  }

  lemma TakeTake(s: seq<string>, n: nat)
    requires 0 < n <= |s|
    ensures s[..n][..|s[..n]| - 1] == s[..n - 1] && |s[..n]| == n
  {
  }

  lemma EvictingDone(m: Items, order: seq<string>, cap: nat, n: nat, left: View)
    requires Evicting(m, order, cap, n, left) && Weight(left.items) <= cap && cap > 0
    ensures left == Trim(StoreSpec.Config(true, cap), StoreSpec.View(m, order))
  {
    TotalIsWeight(m, order[..n]);
    FittingUnique(m, order, cap, n);
  }

  /** The keys of `order` that lie in `keys`. */
  function InOrder(order: seq<string>, keys: set<string>): seq<string> {
    if order == [] then [] else (if order[0] in keys then [order[0]] else []) + InOrder(order[1..], keys)
  }

  lemma {:induction false} InOrderMinus(order: seq<string>, keys: set<string>, key: string)
    ensures InOrder(order, keys - {key}) == Without(InOrder(order, keys), key)
  {
    if order != [] {
      InOrderMinus(order[1..], keys, key);
      var rest := InOrder(order[1..], keys);
      if order[0] in keys {
        assert InOrder(order, keys)[1..] == rest;
      } else {
        assert InOrder(order, keys) == rest;
      }
    }
  }

  lemma {:induction false} InOrderAll(order: seq<string>, keys: set<string>)
    requires forall k <- order :: k in keys
    ensures InOrder(order, keys) == order
  {
    if order != [] {
      InOrderAll(order[1..], keys);
    }
  }

  /** A sweep of `all` that has still to look at the keys in `left`. */
  ghost predicate Pending(all: map<string, Entry>, entries: map<string, Entry>, left: set<string>, now: Time) {
    && (forall k :: k in entries <==> k in all && (k in left || !Expired(all[k].item.expiresAt, now)))
    && (forall k <- entries :: entries[k] == all[k])
  }

  lemma PendingNone(all: map<string, Entry>, entries: map<string, Entry>, now: Time)
    requires Pending(all, entries, {}, now)
    ensures ItemsOf(entries) == Swept(ItemsOf(all), now)
    ensures entries.Keys == Swept(ItemsOf(all), now).Keys
  {
    assert forall k :: k in ItemsOf(all) <==> k in all;
  }

  lemma {:induction false} InOrderLive(m: Items, order: seq<string>, now: Time)
    ensures InOrder(order, Swept(m, now).Keys) == OnlyLive(m, order, now)
  {
    if order != [] {
      InOrderLive(m, order[1..], now);
    }
  }

  // ---------- Map and list ----------

  /** Element identity: `e` is the element its key's entry points to. */
  predicate Held(entries: map<string, Entry>, e: Element) {
    e.key in entries && entries[e.key].element == e
  }

  predicate Owns(entries: map<string, Entry>, key: string, e: Element?) {
    e != null && key in entries && entries[key].element == e
  }

  predicate AllHeld(entries: map<string, Entry>, l: seq<Element>) {
    forall e <- l :: Held(entries, e)
  }

  lemma HeldUnlink(entries: map<string, Entry>, l: seq<Element>, e: Element)
    requires AllHeld(entries, l) && Distinct(KeysOf(l)) && e in l
    ensures AllHeld(entries - {e.key}, Unlink(l, e))
    ensures AllHeld(entries, [e] + Unlink(l, e))
  {
    UnlinkMembers(l, e);
    forall x <- Unlink(l, e) ensures Held(entries - {e.key}, x) && Held(entries, x) {
      assert Held(entries, x);
    }
  }

  lemma HeldPush(entries: map<string, Entry>, l: seq<Element>, e: Element, entry: Entry)
    requires AllHeld(entries, l) && e.key !in entries && entry.element == e
    ensures AllHeld(entries[e.key := entry], [e] + l)
  {
    forall x <- [e] + l ensures Held(entries[e.key := entry], x) {
      assert x == e || Held(entries, x);
    }
  }

  lemma HeldLast(entries: map<string, Entry>, l: seq<Element>)
    requires AllHeld(entries, l) && l != []
    ensures Held(entries, l[|l| - 1])
  {
    assert l[|l| - 1] in l;
  }

  lemma HeldInit(entries: map<string, Entry>, l: seq<Element>)
    requires AllHeld(entries, l) && Distinct(KeysOf(l)) && l != []
    ensures AllHeld(entries - {l[|l| - 1].key}, l[..|l| - 1])
  {
    var back, init := l[|l| - 1], l[..|l| - 1];
    forall i | 0 <= i < |init| ensures Held(entries - {back.key}, init[i]) {
      InitKey(l, i);
      assert init[i] == l[i] && l[i] in l;
      assert Held(entries, l[i]);
    }
  }

  lemma KeysInit(l: seq<Element>)
    requires l != []
    ensures KeysOf(l[..|l| - 1]) == KeysOf(l)[..|l| - 1]
  {
  }

  lemma {:induction false} InitKey(l: seq<Element>, i: nat)
    requires Distinct(KeysOf(l)) && i < |l| - 1
    ensures l[i].key != l[|l| - 1].key
  {
    var rest, keys := l[1..], KeysOf(l[1..]);
    assert KeysOf(l) == [l[0].key] + keys;
    DistinctTail(l[0].key, keys);
    if i == 0 {
      assert keys[|rest| - 1] == l[|l| - 1].key;
    } else {
      InitKey(rest, i - 1);
    }
  }

  /** Nothing was put in front. */
  predicate SameFront(l: seq<Element>, l0: seq<Element>) {
    l != [] ==> l0 != [] && l[0] == l0[0]
  }

  function ItemsOf(entries: map<string, Entry>): Items {
    map k | k in entries :: entries[k].item
  }

  /** Sizes are recorded correctly and add up to `mem`. */
  ghost predicate Counted(entries: map<string, Entry>, mem: int) {
    && (forall k <- entries :: entries[k].size == Size(k, entries[k].item))
    && mem == Weight(ItemsOf(entries))
  }

  lemma CountedWithout(entries: map<string, Entry>, mem: int, key: string)
    requires Counted(entries, mem) && key in entries
    ensures Counted(entries - {key}, mem - entries[key].size) && entries[key].size >= 0
    ensures ItemsOf(entries - {key}) == ItemsOf(entries) - {key}
  {
    ItemsMinus(entries, key);
    WeightWithout(ItemsOf(entries), key);
  }

  lemma CountedWith(entries: map<string, Entry>, mem: int, key: string, entry: Entry)
    requires Counted(entries, mem) && key !in entries && entry.size == Size(key, entry.item)
    ensures Counted(entries[key := entry], mem + entry.size)
    ensures ItemsOf(entries[key := entry]) == ItemsOf(entries)[key := entry.item]
  {
    assert ItemsOf(entries[key := entry]) == ItemsOf(entries)[key := entry.item];
    WeightUpdate(ItemsOf(entries), key, entry.item);
  }

  /**
    The map and the list are in bijection: the list names each stored key once, through the element
    its entry points to. Without a list no entry has an element.
   */
  ghost predicate Linked(entries: map<string, Entry>, l: seq<Element>, hasList: bool) {
    && AllHeld(entries, l)
    && (if hasList then Enumerates(KeysOf(l), ItemsOf(entries))
        else l == [] && forall k <- entries :: entries[k].element == null)
  }

  lemma EntryElement(entries: map<string, Entry>, l: seq<Element>, hasList: bool, key: string)
    requires Linked(entries, l, hasList) && key in entries
    ensures hasList ==> entries[key].element != null && entries[key].element in l && entries[key].element.key == key
  {
    if hasList {
      assert key in KeysOf(l);
      var i :| 0 <= i < |l| && KeysOf(l)[i] == key;
      assert l[i] in l && Held(entries, l[i]);
    }
  }

  lemma FrontElement(entries: map<string, Entry>, l: seq<Element>, key: string, e: Element)
    requires Linked(entries, l, true) && e.key == key && (l != [] ==> l[0] == e)
    ensures key in entries ==> entries[key].element == e
  {
    if key in entries {
      EntryElement(entries, l, true, key);
      assert l[0] in l && Held(entries, l[0]);
    }
  }

  lemma LinkedWithout(entries: map<string, Entry>, l: seq<Element>, hasList: bool, key: string)
    requires Linked(entries, l, hasList) && key in entries
    ensures var e := entries[key].element; var rest := if e == null then l else Unlink(l, e);
            Linked(entries - {key}, rest, hasList) && KeysOf(rest) == Without(KeysOf(l), key)
  {
    EntryElement(entries, l, hasList, key);
    if hasList {
      var e := entries[key].element;
      HeldUnlink(entries, l, e);
      UnlinkKeys(l, e);
      EnumeratesWithout(KeysOf(l), ItemsOf(entries), key);
      ItemsMinus(entries, key);
    }
  }

  lemma LinkedWith(entries: map<string, Entry>, l: seq<Element>, hasList: bool, key: string, entry: Entry)
    requires Linked(entries, l, hasList) && key !in entries
    requires if hasList then entry.element != null && entry.element.key == key else entry.element == null
    ensures var front := if hasList then [entry.element] + l else l;
            Linked(entries[key := entry], front, hasList)
            && KeysOf(front) == if hasList then [key] + KeysOf(l) else KeysOf(l)
  {
    if hasList {
      HeldPush(entries, l, entry.element, entry);
      assert ([entry.element] + l)[1..] == l;
      ConsDistinct(key, KeysOf(l));
    }
  }

  /** Deleting and pushing give what a write gives before it evicts. */
  lemma PushedView(hasList: bool, before: View, after: View, key: string, item: Item)
    requires !hasList ==> before.order == []
    requires after.items == Drop(before, key).items[key := item]
    requires after.order == (if hasList then [key] else []) + Drop(before, key).order
    ensures var order := if hasList then ToFront(before.order, key) else before.order;
            after == StoreSpec.View(before.items[key := item], order)
  {
  }

  lemma LinkedMoved(entries: map<string, Entry>, l: seq<Element>, hasList: bool, e: Element)
    requires Linked(entries, l, hasList) && Held(entries, e)
    ensures hasList && Linked(entries, [e] + Unlink(l, e), hasList)
    ensures KeysOf([e] + Unlink(l, e)) == ToFront(KeysOf(l), e.key) && e.key in KeysOf(l)
  {
    EntryElement(entries, l, hasList, e.key);
    HeldUnlink(entries, l, e);
    UnlinkKeys(l, e);
    var m := ItemsOf(entries);
    EnumeratesToFront(KeysOf(l), m, e.key, m[e.key]);
    assert m[e.key := m[e.key]] == m;
    assert ([e] + Unlink(l, e))[1..] == Unlink(l, e);
  }

  lemma LinkedInit(entries: map<string, Entry>, l: seq<Element>)
    requires Linked(entries, l, true) && l != []
    ensures var key := l[|l| - 1].key;
            key in entries && Linked(entries - {key}, l[..|l| - 1], true)
              && KeysOf(l[..|l| - 1]) == KeysOf(l)[..|l| - 1]
  {
    var key := l[|l| - 1].key;
    HeldLast(entries, l);
    HeldInit(entries, l);
    KeysInit(l);
    assert KeysOf(l)[|KeysOf(l)| - 1] == key;
    EnumeratesInit(KeysOf(l), ItemsOf(entries));
    ItemsMinus(entries, key);
  }

  lemma ItemsMinus(entries: map<string, Entry>, key: string)
    ensures ItemsOf(entries - {key}) == ItemsOf(entries) - {key}
  {
  }

  lemma EnumeratesInit(order: seq<string>, m: Items)
    requires Enumerates(order, m) && order != []
    ensures Enumerates(order[..|order| - 1], m - {order[|order| - 1]})
  {
    assert order == order[..|order| - 1] + [order[|order| - 1]];
  }

  lemma LinkedKeys(entries: map<string, Entry>, l: seq<Element>, hasList: bool)
    requires Linked(entries, l, hasList)
    ensures forall k <- KeysOf(l) :: k in entries.Keys
  {
    assert forall k :: k in ItemsOf(entries) <==> k in entries;
  }

  class Store {
    /** False for a store made without eviction: `lruList` is nil. */
    const hasList: bool
    const memCap: int
    var entries: map<string, Entry>
    var currentMem: int
    /** Front, most recently used, first. */
    var lruList: seq<Element>

    function Config(): StoreSpec.Config {
      StoreSpec.Config(hasList, memCap)
    }

    ghost function Items(): Items
      reads this
    {
      ItemsOf(entries)
    }

    /** The contents and the recency order as a value. */
    ghost function View(): View
      reads this
    {
      StoreSpec.View(Items(), KeysOf(lruList))
    }

    /** Everything but the cap, which is exceeded between a write and its evictions. */
    ghost predicate Consistent()
      reads this
    {
      Linked(entries, lruList, hasList) && Counted(entries, currentMem) && (!hasList ==> memCap == 0)
    }

    ghost predicate Valid()
      reads this
    {
      Consistent() && (Config().Evicts() ==> currentMem <= memCap)
    }

    lemma ValidIsSound()
      requires Consistent()
      ensures Valid() <==> Sound(Config(), View())
    {
    }

    /** `New`: no eviction. */
    constructor ()
      ensures Valid() && View() == StoreSpec.View(map[], []) && Config() == StoreSpec.Config(false, 0)
    {
      hasList, memCap := false, 0;
      entries, currentMem, lruList := map[], 0, [];
    }

    constructor WithEviction(memCap: int)
      ensures Valid() && View() == StoreSpec.View(map[], []) && Config() == StoreSpec.Config(true, memCap)
    {
      hasList, this.memCap := true, memCap;
      entries, currentMem, lruList := map[], 0, [];
    }

    /** A new entry with a new element in front of the list; the cap may be exceeded. */
    method Push(key: string, item: Item)
      requires Consistent() && key !in entries
      modifies this
      ensures Consistent() && Items() == old(Items())[key := item]
      ensures KeysOf(lruList) == (if hasList then [key] else []) + old(KeysOf(lruList))
      ensures currentMem == old(currentMem) + |key| + |item.value|
      ensures hasList ==> lruList != [] && lruList[0].key == key && fresh(lruList[0])
    {
      var size := |key| + |item.value|;
      var element: Element? := null;
      if hasList {
        element := new Element(key);
      }
      var entry := Entry(item, size, element);
      LinkedWith(entries, lruList, hasList, key, entry);
      CountedWith(entries, currentMem, key, entry);
      currentMem := currentMem + size;
      if hasList {
        lruList := [element] + lruList;
      }
      entries := entries[key := entry];
    }

    /** The common body of the writers: replace the entry, put a new element in front, evict. */
    method Put(key: string, item: Item)
      requires Valid()
      modifies this
      ensures Valid()
      ensures View() == StoreSpec.Put(Config(), old(View()), key, item)
      ensures Stores(Config(), old(Items()), Items(), key, item)
      ensures Config().Evicts() ==> EvictsLast(Config(), old(View()), View(), key, item)
      ensures key in entries && hasList ==> fresh(entries[key].element)
    {
      ghost var before := View();
      ValidIsSound();
      PutStores(Config(), before, key, item);
      if Config().Evicts() {
        PutEvictsLast(Config(), before, key, item);
      }
      DeleteLocked(key);
      Push(key, item);
      PushedView(hasList, before, View(), key, item);
      ghost var pushed := lruList;
      EvictIfNeeded();
      if hasList {
        FrontElement(entries, lruList, key, pushed[0]);
      }
    }

    method Set(key: string, value: string, ttl: int, now: Time)
      requires Valid()
      modifies this
      ensures Valid()
      ensures View() == StoreSpec.Put(Config(), old(View()), key,
                                      NextItem(old(Items()), key, value, Deadline(ttl, now)))
      ensures Stores(Config(), old(Items()), Items(), key,
                     Item(value, if ttl > 0 then now + ttl else NEVER,
                          if key in old(Items()) then old(Items())[key].version + 1 else 1))
      ensures key in entries && hasList ==> fresh(entries[key].element)
    {
      var expiresAt := NEVER;
      if ttl > 0 {
        expiresAt := now + ttl;
      }
      SetWithExpiry(key, value, expiresAt);
    }

    method SetWithExpiry(key: string, value: string, expiresAt: Time)
      requires Valid()
      modifies this
      ensures Valid()
      ensures View() == StoreSpec.Put(Config(), old(View()), key, NextItem(old(Items()), key, value, expiresAt))
      ensures Stores(Config(), old(Items()), Items(), key,
                     Item(value, expiresAt, if key in old(Items()) then old(Items())[key].version + 1 else 1))
      ensures key in entries && hasList ==> fresh(entries[key].element)
    {
      var version := 1;
      if key in entries {
        version := entries[key].item.version + 1;
      }
      Put(key, Item(value, expiresAt, version));
    }

    method SetVersion(key: string, value: string, expiresAt: Time, version: int) returns (accepted: bool)
      requires Valid()
      modifies this
      ensures Valid()
      ensures accepted <==> !Refuses(old(Items()), key, version)
      ensures accepted <==> !(key in old(Items()) && old(Items())[key].version >= version)
      ensures accepted ==> Stores(Config(), old(Items()), Items(), key, Item(value, expiresAt, version))
      ensures View() == if accepted then StoreSpec.Put(Config(), old(View()), key, Item(value, expiresAt, version))
                        else old(View())
    {
      if key in entries && entries[key].item.version >= version {
        return false;
      }
      Put(key, Item(value, expiresAt, version));
      return true;
    }

    method GetWithVersion(key: string, now: Time) returns (found: Option<Item>)
      requires Valid()
      ensures found == Fetch(Items(), key, now)
      ensures found == if key in Items() && (Items()[key].expiresAt == NEVER || now < Items()[key].expiresAt)
                       then Some(Items()[key]) else None
    {
      if key !in entries || Expired(entries[key].item.expiresAt, now) {
        return None;
      }
      return Some(entries[key].item);
    }

    method GetExpiry(key: string) returns (expiresAt: Time)
      ensures expiresAt == if key in Items() then Items()[key].expiresAt else NEVER
    {
      return if key in entries then entries[key].item.expiresAt else NEVER;
    }

    /** The read-locked half of `Get`. */
    method GetRead(key: string, now: Time) returns (r: Reading)
      requires Valid()
      ensures r.Hit? <==> Live(Items(), key, now)
      ensures r.Hit? <==> key in Items() && (Items()[key].expiresAt == NEVER || now < Items()[key].expiresAt)
      ensures r.Stale? <==> key in Items() && !Live(Items(), key, now)
      ensures r.Hit? ==> r.value == Items()[key].value && r.element == entries[key].element
    {
      if key !in entries {
        return Missing;
      }
      if Expired(entries[key].item.expiresAt, now) {
        return Stale;
      }
      return Hit(entries[key].item.value, entries[key].element);
    }

    /** The write-locked half after a stale reading: the copy is checked again before it is deleted. */
    method GetReap(key: string, now: Time)
      requires Valid()
      modifies this
      ensures Valid() && View() == Reap(old(View()), key, now)
      ensures OthersStay(old(Items()), Items(), key)
      ensures if key in old(Items()) && (old(Items())[key].expiresAt == NEVER || now < old(Items())[key].expiresAt)
              then View() == old(View()) else key !in Items()
    {
      if key in entries && Expired(entries[key].item.expiresAt, now) {
        DeleteLocked(key);
      }
    }

    /**
      The write-locked half after a hit. Whatever happened since the reading, only the element that
      is still the key's own is moved; any other change leaves the store as it is.
     */
    method GetTouch(key: string, element: Element?)
      requires Valid()
      modifies this`lruList
      ensures Valid()
      ensures View() == if Owns(old(entries), key, element) then Touch(old(View()), key) else old(View())
    {
      if element != null {
        if key in entries && entries[key].element == element {
          EntryElement(entries, lruList, hasList, key);
          MoveToFront(element);
        }
      }
    }

    /** A `Get` with nothing in between; `later` is the clock reading of the second check. */
    method Get(key: string, now: Time, later: Time) returns (value: Option<string>)
      requires Valid() && now <= later
      modifies this
      ensures Valid()
      ensures var was := old(Items());
              value == if key in was && (was[key].expiresAt == NEVER || now < was[key].expiresAt)
                       then Some(was[key].value) else None
      ensures OthersStay(old(Items()), Items(), key)
      ensures value.Some? ==> Items() == old(Items())
      ensures value.None? ==> key !in Items()
      ensures View() == if value.Some? then Touch(old(View()), key) else Reap(old(View()), key, now)
    {
      var r := GetRead(key, now);
      match r
      case Missing =>
        return None;
      case Stale =>
        GetReap(key, later);
        return None;
      case Hit(v, element) =>
        EntryElement(entries, lruList, hasList, key);
        GetTouch(key, element);
        return Some(v);
    }

    method Delete(key: string)
      requires Valid()
      modifies this
      ensures Valid() && View() == Drop(old(View()), key)
      ensures key !in Items() && OthersStay(old(Items()), Items(), key)
    {
      DeleteLocked(key);
    }

    /** `MoveToFront` of the list acts on the element itself, which here is its key's own. */
    method MoveToFront(element: Element)
      requires Valid() && Held(entries, element)
      modifies this`lruList
      ensures Valid() && View() == Touch(old(View()), element.key)
    {
      LinkedMoved(entries, lruList, hasList, element);
      lruList := [element] + Unlink(lruList, element);
    }

    method DeleteLocked(key: string)
      requires Consistent()
      modifies this
      ensures Consistent() && View() == Drop(old(View()), key)
      ensures entries == old(entries) - {key} && currentMem <= old(currentMem)
    {
      if key in entries {
        LinkedWithout(entries, lruList, hasList, key);
        CountedWithout(entries, currentMem, key);
        var e := entries[key];
        currentMem := currentMem - e.size;
        if e.element != null {
          lruList := Unlink(lruList, e.element);
        }
        entries := entries - {key};
      } else {
        assert entries - {key} == entries && Items() - {key} == Items();
        WithoutAbsent(KeysOf(lruList), key);
      }
    }

    method EvictIfNeeded()
      requires Consistent()
      modifies this
      ensures Valid() && View() == Trim(Config(), old(View()))
      ensures SameFront(lruList, old(lruList))
    {
      if memCap <= 0 || !hasList {
        return;
      }
      ghost var m, order, n: nat := Items(), KeysOf(lruList), |lruList|;
      EvictingStarts(m, order, memCap);
      while currentMem > memCap
        invariant Consistent() && Evicting(m, order, memCap, n, View())
        invariant SameFront(lruList, old(lruList))
        decreases n
      {
        EvictingStep(m, order, memCap, n, View());
        if |lruList| == 0 {
          break;
        }
        RemoveBack();
        n := n - 1;
      }
      EvictingDone(m, order, memCap, n, View());
    }

    /** One eviction: the last listed element and its key's entry. */
    method RemoveBack()
      requires Consistent() && lruList != []
      modifies this
      ensures Consistent()
      ensures lruList == old(lruList)[..|old(lruList)| - 1]
      ensures KeysOf(lruList) == KeysOf(old(lruList))[..|old(lruList)| - 1]
      ensures Items() == old(Items()) - {KeysOf(old(lruList))[|old(lruList)| - 1]}
      ensures entries == old(entries) - {KeysOf(old(lruList))[|old(lruList)| - 1]}
    {
      LinkedInit(entries, lruList);
      var key := lruList[|lruList| - 1].key;
      lruList := lruList[..|lruList| - 1];
      if key in entries {
        CountedWithout(entries, currentMem, key);
        currentMem := currentMem - entries[key].size;
        entries := entries - {key};
      }
    }

    /** All unexpired keys, each once, in some order. */
    method Keys(now: Time) returns (keys: seq<string>)
      requires Valid()
      ensures Distinct(keys) && forall k :: k in keys <==> k in LiveKeys(Items(), now)
      ensures forall k :: k in keys
                          <==> k in Items() && (Items()[k].expiresAt == NEVER || now < Items()[k].expiresAt)
    {
      keys := [];
      var left := entries.Keys;
      while left != {}
        invariant left <= entries.Keys
        invariant Distinct(keys)
        invariant forall k :: k in keys <==> k in entries.Keys - left && Live(Items(), k, now)
        decreases left
      {
        var k :| k in left;
        left := left - {k};
        if Expired(entries[k].item.expiresAt, now) {
          continue;
        }
        SnocDistinct(keys, k);
        keys := keys + [k];
      }
    }

    /** One tick of the sweep loop. */
    method SweepTick(now: Time)
      requires Valid()
      modifies this
      ensures Valid() && View() == Sweep(old(View()), now)
      ensures forall k :: k in Items()
                <==> k in old(Items()) && (old(Items())[k].expiresAt == NEVER || now < old(Items())[k].expiresAt)
      ensures forall k <- Items() :: Items()[k] == old(Items())[k]
    {
      ghost var all, order := entries, KeysOf(lruList);
      LinkedKeys(entries, lruList, hasList);
      InOrderAll(order, entries.Keys);
      var left := entries.Keys;
      while left != {}
        invariant Valid() && left <= entries.Keys
        invariant Pending(all, entries, left, now)
        invariant KeysOf(lruList) == InOrder(order, entries.Keys)
        decreases left
      {
        var k :| k in left;
        if Expired(entries[k].item.expiresAt, now) {
          InOrderMinus(order, entries.Keys, k);
          DeleteLocked(k);
        }
        left := left - {k};
      }
      PendingNone(all, entries, now);
      InOrderLive(ItemsOf(all), order, now);
    }
  }
}
