/**
  The evicting store against a plain reference: one list of cells, most recent first, where a write
  keeps the longest prefix that fits. The store holds a map and a list of keys instead, and evicts
  one key at a time from the back; over any run the two agree cell by cell.
 */
module Lru {
  import opened Lists
  import opened Expiry
  import opened StoreSpec

  datatype Cell = Cell(key: string, item: Item)

  /** One critical section of the store. A whole `Get` is a read followed by `TouchKey` or `ReapKey`. */
  datatype Op =
    | Write(key: string, value: string, expiresAt: Time)
    | WriteVersion(key: string, item: Item)
    | TouchKey(key: string)
    | ReapKey(key: string, now: Time)
    | Delete(key: string)
    | SweepAll(now: Time)

  // ---------- The reference list ----------

  function Find(l: seq<Cell>, key: string): Option<Item> {
    if l == [] then None else if l[0].key == key then Some(l[0].item) else Find(l[1..], key)
  }

  function Erase(l: seq<Cell>, key: string): seq<Cell> {
    if l == [] then [] else (if l[0].key == key then [] else [l[0]]) + Erase(l[1..], key)
  }

  /** The longest prefix whose total size is at most `cap`, found from the front. */
  function Keep(l: seq<Cell>, cap: nat): seq<Cell> {
    if l == [] || Size(l[0].key, l[0].item) > cap then []
    else [l[0]] + Keep(l[1..], cap - Size(l[0].key, l[0].item))
  }

  function Unexpired(l: seq<Cell>, now: Time): seq<Cell> {
    if l == [] then []
    else (if Expired(l[0].item.expiresAt, now) then [] else [l[0]]) + Unexpired(l[1..], now)
  }

  function RefPut(l: seq<Cell>, cap: nat, key: string, item: Item): seq<Cell> {
    Keep([Cell(key, item)] + Erase(l, key), cap)
  }

  function RefStep(l: seq<Cell>, cap: nat, op: Op): seq<Cell> {
    match op
    case Write(key, value, expiresAt) =>
      var found := Find(l, key);
      RefPut(l, cap, key, Item(value, expiresAt, if found.Some? then found.value.version + 1 else 1))
    case WriteVersion(key, item) =>
      var found := Find(l, key);
      if found.Some? && found.value.version >= item.version then l else RefPut(l, cap, key, item)
    case TouchKey(key) =>
      var found := Find(l, key);
      if found.Some? then [Cell(key, found.value)] + Erase(l, key) else l
    case ReapKey(key, now) =>
      var found := Find(l, key);
      if found.Some? && Expired(found.value.expiresAt, now) then Erase(l, key) else l
    case Delete(key) => Erase(l, key)
    case SweepAll(now) => Unexpired(l, now)
  }

  function RefRun(cap: nat, ops: seq<Op>): seq<Cell> {
    if ops == [] then [] else RefStep(RefRun(cap, ops[..|ops| - 1]), cap, ops[|ops| - 1])
  }

  // ---------- The store ----------

  ghost function Step(c: Config, v: View, op: Op): View
    requires Sound(c, v)
    ensures Sound(c, Step(c, v, op))
  {
    match op
    case Write(key, value, expiresAt) =>
      var item := NextItem(v.items, key, value, expiresAt);
      PutSound(c, v, key, item);
      Put(c, v, key, item)
    case WriteVersion(key, item) =>
      PutSound(c, v, key, item);
      if Refuses(v.items, key, item.version) then v else Put(c, v, key, item)
    case TouchKey(key) =>
      TouchSound(c, v, key);
      Touch(v, key)
    case ReapKey(key, now) =>
      DropSound(c, v, key);
      Reap(v, key, now)
    case Delete(key) =>
      DropSound(c, v, key);
      Drop(v, key)
    case SweepAll(now) =>
      SweepSound(c, v, now);
      Sweep(v, now)
  }

  ghost function Run(c: Config, ops: seq<Op>): (v: View)
    requires c.cap >= 0
    ensures Sound(c, v)
  {
    if ops == [] then View(map[], []) else Step(c, Run(c, ops[..|ops| - 1]), ops[|ops| - 1])
  }

  /** The cells of a view in recency order. */
  function CellsOf(m: Items, order: seq<string>): seq<Cell>
    requires forall k <- order :: k in m
  {
    if order == [] then [] else [Cell(order[0], m[order[0]])] + CellsOf(m, order[1..])
  }

  lemma {:induction false} CellsFind(m: Items, order: seq<string>, key: string)
    requires forall k <- order :: k in m
    ensures Find(CellsOf(m, order), key) == if key in order then Some(m[key]) else None
  {
    if order != [] {
      CellsFind(m, order[1..], key);
      assert CellsOf(m, order)[1..] == CellsOf(m, order[1..]);
    }
  }

  lemma {:induction false} CellsErase(m: Items, m': Items, order: seq<string>, key: string)
    requires forall k <- order :: k in m && (k != key ==> k in m' && m'[k] == m[k])
    ensures CellsOf(m', Without(order, key)) == Erase(CellsOf(m, order), key)
  {
    if order != [] {
      CellsErase(m, m', order[1..], key);
      assert CellsOf(m, order)[1..] == CellsOf(m, order[1..]);
      var rest := Without(order[1..], key);
      if order[0] != key {
        assert Without(order, key) == [order[0]] + rest;
        assert ([order[0]] + rest)[1..] == rest;
      } else {
        assert Without(order, key) == rest;
      }
    }
  }

  lemma {:induction false} CellsUnexpired(m: Items, order: seq<string>, now: Time)
    requires forall k <- order :: k in m
    ensures forall k <- OnlyLive(m, order, now) :: k in Swept(m, now)
    ensures CellsOf(Swept(m, now), OnlyLive(m, order, now)) == Unexpired(CellsOf(m, order), now)
  {
    OnlyLiveKeys(m, order, now);
    if order != [] {
      CellsUnexpired(m, order[1..], now);
      assert CellsOf(m, order)[1..] == CellsOf(m, order[1..]);
      var rest := OnlyLive(m, order[1..], now);
      if Live(m, order[0], now) {
        assert OnlyLive(m, order, now) == [order[0]] + rest;
        assert ([order[0]] + rest)[1..] == rest;
      } else {
        assert OnlyLive(m, order, now) == rest;
      }
    }
  }

  lemma {:induction false} CellsAgree(m: Items, m': Items, order: seq<string>)
    requires forall k <- order :: k in m && k in m' && m[k] == m'[k]
    ensures CellsOf(m, order) == CellsOf(m', order)
  {
    if order != [] {
      CellsAgree(m, m', order[1..]);
    }
  }

  lemma {:induction false} TotalCons(m: Items, k: string, rest: seq<string>)
    requires k in m && forall x <- rest :: x in m
    ensures Total(m, [k] + rest) == Size(k, m[k]) + Total(m, rest)
  {
    if rest == [] {
      assert [k] + rest == [k];
      assert [k][..0] == [];
    } else {
      var s := [k] + rest;
      assert s[..|s| - 1] == [k] + rest[..|rest| - 1];
      TotalCons(m, k, rest[..|rest| - 1]);
    }
  }

  lemma TotalPrefix(m: Items, order: seq<string>, j: nat)
    requires 1 <= j <= |order| && forall k <- order :: k in m
    ensures Total(m, order[..j]) == Size(order[0], m[order[0]]) + Total(m, order[1..][..j - 1])
  {
    assert order[..j] == [order[0]] + order[1..][..j - 1];
    TotalCons(m, order[0], order[1..][..j - 1]);
  }

  /** One more kept cell in front. */
  lemma KeepMore(m: Items, order: seq<string>, cap: nat, n: nat)
    requires 0 < n <= |order| && forall k <- order :: k in m
    requires Size(order[0], m[order[0]]) <= cap
    requires CellsOf(m, order[1..][..n - 1]) == Keep(CellsOf(m, order[1..]), cap - Size(order[0], m[order[0]]))
    ensures CellsOf(m, order[..n]) == Keep(CellsOf(m, order), cap)
  {
    assert order[..n][0] == order[0] && order[..n][1..] == order[1..][..n - 1];
    assert CellsOf(m, order)[1..] == CellsOf(m, order[1..]);
  }

  lemma {:induction false} KeepPrefix(m: Items, order: seq<string>, cap: nat, n: nat)
    requires n <= |order| && forall k <- order :: k in m
    requires Total(m, order[..n]) <= cap
    requires n < |order| ==> Total(m, order[..n + 1]) > cap
    ensures CellsOf(m, order[..n]) == Keep(CellsOf(m, order), cap)
  {
    if order == [] {
      assert order[..n] == [];
    } else if n == 0 {
      TotalPrefix(m, order, 1);
      assert order[1..][..0] == [] && order[..0] == [];
    } else {
      TotalPrefix(m, order, n);
      if n < |order| {
        TotalPrefix(m, order, n + 1);
      }
      KeepPrefix(m, order[1..], cap - Size(order[0], m[order[0]]), n - 1);
      KeepMore(m, order, cap, n);
    }
  }

  /** Evicting from the back leaves what keeping from the front keeps. */
  lemma KeepIsFitting(m: Items, order: seq<string>, cap: nat)
    requires forall k <- order :: k in m
    ensures CellsOf(m, order[..Fitting(m, order, cap)]) == Keep(CellsOf(m, order), cap)
  {
    KeepPrefix(m, order, cap, Fitting(m, order, cap));
  }

  /** The view and the reference list hold the same cells in the same order. */
  ghost predicate Agree(v: View, l: seq<Cell>) {
    (forall k <- v.order :: k in v.items) && CellsOf(v.items, v.order) == l
  }

  lemma PutRefines(c: Config, v: View, key: string, item: Item)
    requires Sound(c, v) && c.Evicts()
    ensures Agree(Put(c, v, key, item), RefPut(CellsOf(v.items, v.order), c.cap, key, item))
  {
    PutSound(c, v, key, item);
    var m, order := v.items[key := item], ToFront(v.order, key);
    CellsErase(v.items, m, v.order, key);
    assert order[1..] == Without(v.order, key);
    assert CellsOf(m, order) == [Cell(key, item)] + Erase(CellsOf(v.items, v.order), key);
    KeepIsFitting(m, order, c.cap);
    var kept := order[..Fitting(m, order, c.cap)];
    CellsAgree(m, Only(m, kept), kept);
  }

  lemma TouchRefines(v: View, key: string)
    requires Enumerates(v.order, v.items)
    ensures forall k <- Touch(v, key).order :: k in v.items
    ensures CellsOf(v.items, Touch(v, key).order)
            == if key in v.items then [Cell(key, v.items[key])] + Erase(CellsOf(v.items, v.order), key)
               else CellsOf(v.items, v.order)
  {
    CellsErase(v.items, v.items, v.order, key);
    assert ToFront(v.order, key)[1..] == Without(v.order, key);
  }

  lemma DropRefines(v: View, key: string)
    requires Enumerates(v.order, v.items)
    ensures Enumerates(Drop(v, key).order, Drop(v, key).items)
    ensures CellsOf(Drop(v, key).items, Drop(v, key).order) == Erase(CellsOf(v.items, v.order), key)
  {
    EnumeratesWithout(v.order, v.items, key);
    CellsErase(v.items, v.items - {key}, v.order, key);
  }

  lemma WriteRefines(c: Config, v: View, key: string, value: string, expiresAt: Time)
    requires Sound(c, v) && c.Evicts()
    ensures Agree(Step(c, v, Write(key, value, expiresAt)),
                  RefStep(CellsOf(v.items, v.order), c.cap, Write(key, value, expiresAt)))
  {
    var l, item := CellsOf(v.items, v.order), NextItem(v.items, key, value, expiresAt);
    CellsFind(v.items, v.order, key);
    assert RefStep(l, c.cap, Write(key, value, expiresAt)) == RefPut(l, c.cap, key, item);
    PutRefines(c, v, key, item);
  }

  lemma WriteVersionRefines(c: Config, v: View, key: string, item: Item)
    requires Sound(c, v) && c.Evicts()
    ensures Agree(Step(c, v, WriteVersion(key, item)),
                  RefStep(CellsOf(v.items, v.order), c.cap, WriteVersion(key, item)))
  {
    CellsFind(v.items, v.order, key);
    PutRefines(c, v, key, item);
  }

  lemma RemovalRefines(c: Config, v: View, op: Op)
    requires Sound(c, v) && c.Evicts() && (op.ReapKey? || op.Delete?)
    ensures Agree(Step(c, v, op), RefStep(CellsOf(v.items, v.order), c.cap, op))
  {
    CellsFind(v.items, v.order, op.key);
    DropRefines(v, op.key);
  }

  lemma StepRefines(c: Config, v: View, op: Op)
    requires Sound(c, v) && c.Evicts()
    ensures Agree(Step(c, v, op), RefStep(CellsOf(v.items, v.order), c.cap, op))
  {
    match op
    case Write(key, value, expiresAt) => WriteRefines(c, v, key, value, expiresAt);
    case WriteVersion(key, item) => WriteVersionRefines(c, v, key, item);
    case TouchKey(key) =>
      CellsFind(v.items, v.order, key);
      TouchRefines(v, key);
    case ReapKey(_, _) => RemovalRefines(c, v, op);
    case Delete(_) => RemovalRefines(c, v, op);
    case SweepAll(now) => CellsUnexpired(v.items, v.order, now);
  }

  /** Over any run of critical sections the map and the list together are the reference list. */
  lemma {:induction false} RunRefines(c: Config, ops: seq<Op>)
    requires c.Evicts()
    ensures Agree(Run(c, ops), RefRun(c.cap, ops))
    ensures Run(c, ops).items.Keys == set k | k in Run(c, ops).order
  {
    if ops != [] {
      RunRefines(c, ops[..|ops| - 1]);
      StepRefines(c, Run(c, ops[..|ops| - 1]), ops[|ops| - 1]);
    }
  }

  /** Neither half of a `Get` nor a sweep removes or changes a copy that has not expired. */
  lemma ReadsKeepLive(c: Config, v: View, op: Op, key: string)
    requires Sound(c, v) && (op.TouchKey? || op.ReapKey? || op.SweepAll?)
    requires if op.TouchKey? then key in v.items else Live(v.items, key, op.now)
    ensures key in Step(c, v, op).items && Step(c, v, op).items[key] == v.items[key]
  {
  }
}
