/**
  Key migration as a value: what each step does to the stores, which keys a rebalance plans to move,
  and how running it on every node brings each key to its ring owner. Stores are named by address
  and do not evict.
 */
module RebalanceSpec {
  import opened Lists
  import opened Expiry
  import opened StoreSpec
  import R = RingSpec

  type Stores = map<string, Items>

  // ---------- Planning ----------

  datatype Status = Pending | Pulling | Verifying | Complete | Failed

  datatype Migration = Migration(key: string, newOwner: R.Node, status: Status)

  /** What `Lookup` answers on the fixed ring. */
  type Owner = string -> Option<R.Node>

  ghost function OwnerOf(r: R.RingState, hash: string -> R.Point): Owner {
    key => OwnerAt(r, hash(key))
  }

  ghost function OwnerAt(r: R.RingState, h: R.Point): Option<R.Node> {
    Registered(r.nodes, r.Lookup(h))
  }

  function Registered(nodes: map<string, R.Node>, id: Option<string>): Option<R.Node> {
    if id.Some? && id.value in nodes then Some(nodes[id.value]) else None
  }

  /** The keys whose owner is another node, in order; keys without an owner stay. */
  ghost function Plan(owner: Owner, local: string, keys: seq<string>): seq<Migration> {
    if keys == [] then [] else
      var init, key := Plan(owner, local, keys[..|keys| - 1]), keys[|keys| - 1];
      if Moves(owner, local, key) then init + [Migration(key, owner(key).value, Pending)] else init
  }

  ghost predicate Moves(owner: Owner, local: string, key: string) {
    owner(key).Some? && owner(key).value.id != local
  }

  lemma PlanSnoc(owner: Owner, local: string, keys: seq<string>, key: string)
    ensures Plan(owner, local, keys + [key])
            == Plan(owner, local, keys) + if Moves(owner, local, key) then [Migration(key, owner(key).value, Pending)]
              else []
  {
    assert (keys + [key])[..|keys|] == keys;
  }

  /** A plan names exactly the listed keys that move, each once, with their owners. */
  lemma {:induction false} PlanMembers(owner: Owner, local: string, keys: seq<string>)
    ensures var plan := Plan(owner, local, keys);
            && (forall i :: 0 <= i < |plan| ==> Listed(plan[i], owner, local, keys))
            && (forall k <- keys :: owner(k).Some? && owner(k).value.id != local ==> Planned(plan, k))
            && (Distinct(keys) ==> forall i, j :: 0 <= i < j < |plan| ==> plan[i].key != plan[j].key)
  {
    if keys != [] {
      var init, key := keys[..|keys| - 1], keys[|keys| - 1];
      PlanMembers(owner, local, init);
      assert keys == init + [key];
      var before, plan := Plan(owner, local, init), Plan(owner, local, keys);
      forall k <- keys | Moves(owner, local, k) ensures Planned(plan, k) {
        if k != key {
          assert k in init;
          var i :| 0 <= i < |before| && before[i].key == k;
          assert plan[i].key == k;
        } else {
          assert plan[|before|].key == k;
        }
      }
    }
  }

  lemma PlanListed(owner: Owner, local: string, keys: seq<string>, i: nat)
    requires i < |Plan(owner, local, keys)|
    ensures Listed(Plan(owner, local, keys)[i], owner, local, keys)
  {
    PlanMembers(owner, local, keys);
  }

  lemma PlanIsDistinct(owner: Owner, local: string, keys: seq<string>)
    requires Distinct(keys)
    ensures var plan := Plan(owner, local, keys); forall i, j :: 0 <= i < j < |plan| ==> plan[i].key != plan[j].key
  {
    PlanMembers(owner, local, keys);
  }

  /** The migration takes a listed key from the local node to its owner. */
  ghost predicate Listed(m: Migration, owner: Owner, local: string, keys: seq<string>) {
    m.key in keys && owner(m.key) == Some(m.newOwner) && m.newOwner.id != local && m.status.Pending?
  }

  ghost predicate Planned(plan: seq<Migration>, key: string) {
    exists i :: 0 <= i < |plan| && plan[i].key == key
  }

  /** After a join, every planned migration of a key the local node owned before goes to the node that joined. */
  lemma JoinMovesOnlyToNewNode(r: R.RingState, hash: string -> R.Point, node: R.Node, local: string, keys: seq<string>)
    requires r.WellFormed() && node.id !in r.nodes
    requires forall k <- keys :: r.Lookup(hash(k)) == Some(local)
    ensures var plan := Plan(OwnerOf(r.Added(node), hash), local, keys);
            forall i :: 0 <= i < |plan| ==> plan[i].newOwner == node
  {
    var owner := OwnerOf(r.Added(node), hash);
    var plan := Plan(owner, local, keys);
    forall i | 0 <= i < |plan| ensures plan[i].newOwner == node {
      PlanListed(owner, local, keys, i);
      JoinedOwner(r, hash, node, local, plan[i].key);
    }
  }

  lemma JoinedOwner(r: R.RingState, hash: string -> R.Point, node: R.Node, local: string, key: string)
    requires r.WellFormed() && node.id !in r.nodes && r.Lookup(hash(key)) == Some(local)
    ensures var owner := OwnerOf(r.Added(node), hash);
            Moves(owner, local, key) ==> owner(key) == Some(node)
  {
    R.AddMovesOnlyToNewNode(r, node, hash(key));
    OwnerId(r.Added(node), hash(key));
  }

  lemma OwnerId(r: R.RingState, h: R.Point)
    requires r.WellFormed()
    ensures var id, o := r.Lookup(h), OwnerAt(r, h);
            && (o.Some? <==> id.Some?)
            && (o.Some? ==> o.value.id in r.nodes && o.value == r.nodes[o.value.id] && id == Some(o.value.id))
  {
    R.LookupNoneIff(r, h);
    if r.owner != map[] {
      R.LookupRegistered(r, h);
    }
  }

  // ---------- Copies along a run ----------

  datatype World = World(stores: Stores, clock: Time)

  /**
    As long as the item is current, the node at `a` holds it or a copy of it: its value, with its expiry as
    transferred.
   */
  predicate At(w: World, a: string, key: string, item: Item) {
    Current(item, w.clock) ==>
      && a in w.stores && key in w.stores[a]
      && w.stores[a][key].value == item.value && Matches(item.expiresAt, w.stores[a][key].expiresAt)
  }

  /** Such a copy answers reads. */
  lemma AtIsReadable(w: World, a: string, key: string, item: Item)
    requires At(w, a, key, item) && Current(item, w.clock)
    ensures Has(w, a, key) && w.stores[a][key].value == item.value
  {
    ChainAliveBeforeFloor(item.expiresAt, 1, w.clock);
    assert Hops(item.expiresAt, 0) == item.expiresAt && Hops(item.expiresAt, 1) == Hop(item.expiresAt);
  }

  /** The node at `a` holds an unexpired copy. */
  predicate Has(w: World, a: string, k: string) {
    a in w.stores && Live(w.stores[a], k, w.clock)
  }

  /** Whatever item a node is known to hold it still holds, except for the listed keys at the listed nodes. */
  ghost predicate Keeps(w: World, w': World, except: set<(string, string)>) {
    forall a, k, item :: (a, k) !in except && At(w, a, k, item) ==> At(w', a, k, item)
  }

  /** Time passes and sweeps run on some nodes. */
  function Elapsed(w: World, later: Time, swept: set<string>): World {
    World(map a | a in w.stores :: if a in swept then Swept(w.stores[a], later) else w.stores[a], later)
  }

  predicate Stored(w: World, a: string, k: string) {
    a in w.stores && k in w.stores[a]
  }

  /** No copy, expired or not, appears or changes, except for the listed keys at the listed nodes. */
  ghost predicate NothingNew(w: World, w': World, except: set<(string, string)>) {
    forall a, k :: (a, k) !in except && Stored(w', a, k) ==> Stored(w, a, k) && w'.stores[a][k] == w.stores[a][k]
  }

  lemma ElapsedKeeps(w: World, later: Time, swept: set<string>)
    requires w.clock <= later
    ensures Keeps(w, Elapsed(w, later, swept), {}) && NothingNew(w, Elapsed(w, later, swept), {})
  {
    forall a, k, item | At(w, a, k, item) ensures At(Elapsed(w, later, swept), a, k, item) {
      if Current(item, later) {
        assert Current(item, w.clock);
      }
    }
  }

  lemma ElapsedKeys(w: World, later: Time, swept: set<string>)
    ensures Elapsed(w, later, swept).stores.Keys == w.stores.Keys
    ensures Elapsed(w, w.clock, {}) == w
  {
    assert Elapsed(w, w.clock, {}).stores == w.stores;
  }

  /** The first section of the pull endpoint: a `Get`, which deletes an expired copy. */
  function ValueRead(w: World, a: string, key: string): World
    requires a in w.stores
  {
    w.(stores := w.stores[a := Reaped(w.stores[a], key, w.clock)])
  }

  /** The second section: the stored expiry, or the zero time if the key is gone by then. */
  function ExpiryRead(w: World, a: string, key: string): Time
    requires a in w.stores
  {
    if key in w.stores[a] then w.stores[a][key].expiresAt else NEVER
  }

  /** The accept endpoint. */
  function AcceptedAt(w: World, a: string, key: string, p: Pulled): World
    requires a in w.stores
  {
    w.(stores := w.stores[a := Written(w.stores[a], key, p.value, Decode(p.ms))])
  }

  /** The complete endpoint. */
  function CompletedAt(w: World, a: string, key: string): World
    requires a in w.stores
  {
    w.(stores := w.stores[a := w.stores[a] - {key}])
  }

  lemma ValueReadKeeps(w: World, a: string, key: string)
    requires a in w.stores
    ensures Keeps(w, ValueRead(w, a, key), {}) && NothingNew(w, ValueRead(w, a, key), {})
  {
    forall b, k, item | At(w, b, k, item) ensures At(ValueRead(w, a, key), b, k, item) {
      if Current(item, w.clock) {
        AtIsReadable(w, b, k, item);
      }
    }
  }

  lemma AcceptKeeps(w: World, a: string, key: string, p: Pulled)
    requires a in w.stores
    ensures Keeps(w, AcceptedAt(w, a, key, p), {(a, key)}) && NothingNew(w, AcceptedAt(w, a, key, p), {(a, key)})
  {
  }

  lemma CompleteKeeps(w: World, a: string, key: string)
    requires a in w.stores
    ensures Keeps(w, CompletedAt(w, a, key), {(a, key)}) && NothingNew(w, CompletedAt(w, a, key), {})
    ensures !Has(CompletedAt(w, a, key), a, key)
  {
  }

  datatype Pulled = Pulled(value: string, ms: int)

  /** A replica's copy that is to be written back at `at`, which missed the key in a pull. */
  datatype Repair = Repair(at: string, key: string, value: string, expiresAt: Time)

  /** The reply to a pull carries the item, as long as that is current. */
  predicate Carries(p: Pulled, item: Item, now: Time) {
    Current(item, now) ==> p.value == item.value && Matches(item.expiresAt, Decode(p.ms))
  }

  /** The reply carries whatever item the node at `a` held in `w`. */
  ghost predicate Answers(w: World, a: string, key: string, p: Pulled, now: Time) {
    forall item :: At(w, a, key, item) ==> Carries(p, item, now)
  }

  /** Whatever item the reply carries is held at `a`. */
  ghost predicate Arrived(p: Pulled, now: Time, w: World, a: string, key: string) {
    forall item :: Carries(p, item, now) ==> At(w, a, key, item)
  }

  /** A reply put together from the value in `w` and the expiry in a later world `v`. */
  lemma PulledCarries(w: World, v: World, a: string, key: string, item: Item, now: Time)
    requires Has(w, a, key) && At(w, a, key, item) && w.clock <= v.clock <= now && a in v.stores && At(v, a, key, item)
    ensures Carries(Pulled(w.stores[a][key].value, UnixMilli(ExpiryRead(v, a, key))), item, now)
  {
    if Current(item, now) {
      assert Current(item, v.clock) && Current(item, w.clock);
      MatchesHop(item.expiresAt, v.stores[a][key].expiresAt);
    }
  }

  /** Of a key that `a` does not hold nothing is known, so that any reply will do. */
  lemma MissedAnswers(w: World, a: string, key: string, p: Pulled, now: Time)
    requires !Has(w, a, key) && w.clock <= now
    ensures Answers(w, a, key, p, now)
  {
    forall item | At(w, a, key, item) ensures Carries(p, item, now) {
      if Current(item, w.clock) {
        AtIsReadable(w, a, key, item);
      }
    }
  }

  lemma CarriedIsAt(w: World, a: string, key: string, item: Item, p: Pulled)
    requires a in w.stores && Carries(p, item, w.clock)
    ensures At(AcceptedAt(w, a, key, p), a, key, item)
  {
  }

  // ---------- The gap between the two sections of a pull ----------

  /** The reply to a pull at `a`, where time passes and sweeps run between its two sections. */
  function PulledAcross(w: World, a: string, key: string, later: Time, swept: set<string>): Pulled
    requires Has(w, a, key)
  {
    Pulled(w.stores[a][key].value, UnixMilli(ExpiryRead(Elapsed(ValueRead(w, a, key), later, swept), a, key)))
  }

  /** The expiry that is sent is the copy's own exactly if no sweep has removed the expired copy in between. */
  lemma SentExpiryIff(w: World, a: string, key: string, later: Time, swept: set<string>)
    requires Has(w, a, key) && w.clock <= later && w.stores[a][key].expiresAt >= MILLI
    ensures PulledAcross(w, a, key, later, swept).ms == UnixMilli(w.stores[a][key].expiresAt)
            <==> key in Elapsed(ValueRead(w, a, key), later, swept).stores[a]
    ensures key in Elapsed(ValueRead(w, a, key), later, swept).stores[a]
            <==> !(a in swept && w.stores[a][key].expiresAt <= later)
  {
    var e := w.stores[a][key].expiresAt;
    assert ValueRead(w, a, key).stores[a] == w.stores[a];
    assert UnixMilli(NEVER) < 0 && UnixMilli(e) >= 1;
    assert e != NEVER by {
      assert NEVER < 0;
    }
  }

  /** In that case the key comes back to life: its new owner stores it without an expiry. */
  lemma ResurrectedIff(w: World, a: string, key: string, later: Time, swept: set<string>, new': string)
    requires Has(w, a, key) && w.clock <= later && w.stores[a][key].expiresAt >= MILLI && new' in w.stores
    ensures var v := AcceptedAt(Elapsed(ValueRead(w, a, key), later, swept), new', key,
                                PulledAcross(w, a, key, later, swept));
            && v.stores[new'][key].value == w.stores[a][key].value
            && (v.stores[new'][key].expiresAt == NEVER <==> a in swept && w.stores[a][key].expiresAt <= later)
  {
    SentExpiryIff(w, a, key, later, swept);
    assert UnixMilli(NEVER) < 0;
    assert UnixMilli(w.stores[a][key].expiresAt) * MILLI > 0 > NEVER;
  }

  // ---------- What a run guarantees ----------

  /** The entries of `h` from `from` on come after `w`, and keep what `w` holds but for the exceptions. */
  ghost predicate Follows(w: World, h: seq<World>, from: nat, except: set<(string, string)>) {
    && from <= |h|
    && forall j :: from <= j < |h| ==> After(w, h[j], except)
  }

  ghost predicate After(w: World, v: World, except: set<(string, string)>) {
    v.clock >= w.clock && v.stores.Keys == w.stores.Keys && Keeps(w, v, except) && NothingNew(w, v, except)
  }

  lemma AfterSelf(w: World)
    ensures After(w, w, {})
  {
  }

  lemma AfterThen(u: World, v: World, w: World, except: set<(string, string)>)
    requires After(u, v, except) && After(v, w, except)
    ensures After(u, w, except)
  {
  }

  lemma AnswersLater(w: World, a: string, key: string, p: Pulled, now: Time, later: Time)
    requires Answers(w, a, key, p, now) && now <= later
    ensures Answers(w, a, key, p, later)
  {
    forall item | At(w, a, key, item) ensures Carries(p, item, later) {
      assert Carries(p, item, now);
    }
  }

  lemma AnswersEarlier(w: World, v: World, a: string, key: string, p: Pulled, now: Time)
    requires After(w, v, {}) && Answers(v, a, key, p, now)
    ensures Answers(w, a, key, p, now)
  {
  }

  /** Without exceptions, a copy that is still stored in a later world is the same copy. */
  lemma CopyStays(w: World, v: World, a: string, key: string)
    requires After(w, v, {}) && Has(w, a, key)
    ensures a in v.stores && (key in v.stores[a] ==> v.stores[a][key] == w.stores[a][key])
  {
  }

  /** A key that is not held does not come back. */
  lemma StaysAbsent(w: World, v: World, a: string, key: string)
    requires After(w, v, {}) && !Has(w, a, key)
    ensures !Has(v, a, key)
  {
    assert Stored(v, a, key) ==> Stored(w, a, key) && v.stores[a][key] == w.stores[a][key];
  }

  lemma KeepsMore(w: World, h: seq<World>, from: nat, except: set<(string, string)>)
    requires Follows(w, h, from, {})
    ensures Follows(w, h, from, except)
  {
    forall j | from <= j < |h| ensures After(w, h[j], except) {
      assert After(w, h[j], {});
    }
  }

  /** A later segment of the history still follows the first world. */
  lemma FollowsThen(u: World, v: World, h: seq<World>, h': seq<World>, from: nat, except: set<(string, string)>)
    requires Follows(u, h, from, except) && After(u, v, except) && Follows(v, h', |h|, except) && h <= h'
    ensures Follows(u, h', from, except)
  {
    forall j | from <= j < |h'| ensures After(u, h'[j], except) {
      if j < |h| {
        assert h'[j] == h[j];
      } else {
        assert After(v, h'[j], except);
      }
    }
  }

  /** Any item the node at `old'` held in `w0` is held at `a` in `w`. */
  ghost predicate StillAt(w0: World, w: World, old': string, a: string, key: string) {
    forall item :: At(w0, old', key, item) ==> At(w, a, key, item)
  }

  /** ... or at one of two nodes. */
  ghost predicate AtEither(w0: World, w: World, old': string, a: string, key: string) {
    forall item :: At(w0, old', key, item) ==> At(w, old', key, item) || At(w, a, key, item)
  }

  /** Pull before drop: in every world of the segment the old or the new owner holds the key. */
  ghost predicate Guarded(w0: World, h: seq<World>, from: nat, old': string, a: string, key: string) {
    from <= |h| && forall j :: from <= j < |h| ==> AtEither(w0, h[j], old', a, key)
  }

  /** One more segment, in which the copy at the old or the new owner is left alone. */
  lemma GuardSegment(w0: World, w: World, h: seq<World>, h': seq<World>, from: nat, old': string, a: string,
                     key: string,
                     holder: string, except: set<(string, string)>)
    requires Guarded(w0, h, from, old', a, key) && h <= h' && Follows(w, h', |h|, except)
    requires holder == old' || holder == a
    requires StillAt(w0, w, old', holder, key) && (holder, key) !in except
    ensures Guarded(w0, h', from, old', a, key)
    ensures forall j :: |h| <= j < |h'| ==> StillAt(w0, h'[j], old', holder, key)
  {
    forall j | |h| <= j < |h'| ensures StillAt(w0, h'[j], old', holder, key) {
      assert After(w, h'[j], except);
    }
    forall j | from <= j < |h'| ensures AtEither(w0, h'[j], old', a, key) {
      if j < |h| {
        assert h'[j] == h[j];
      } else {
        assert StillAt(w0, h'[j], old', holder, key);
      }
    }
  }

  /** The worlds recorded since `w0` keep all but one key's copies at two nodes, and at one of them that key. */
  ghost predicate Underway(w0: World, w: World, h: seq<World>, from: nat, old': string, a: string, key: string,
                           holder: string) {
    && Follows(w0, h, from, {(old', key), (a, key)}) && After(w0, w, {(old', key), (a, key)})
    && (a != old' ==> Guarded(w0, h, from, old', a, key) && StillAt(w0, w, old', holder, key))
  }

  lemma UnderwayStarts(w0: World, h: seq<World>, old': string, a: string, key: string)
    ensures Underway(w0, w0, h, |h|, old', a, key, old')
  {
  }

  /** One more call, which leaves the holder's copy alone. */
  lemma UnderwayStep(w0: World, w: World, h: seq<World>, h': seq<World>, from: nat, old': string, a: string,
                     key: string,
                     holder: string, few: set<(string, string)>)
    requires Underway(w0, w, h, from, old', a, key, holder) && (holder == old' || holder == a)
    requires h < h' && Follows(w, h', |h|, few) && few <= {(old', key), (a, key)}
    requires a != old' ==> (holder, key) !in few
    ensures Underway(w0, h'[|h'| - 1], h', from, old', a, key, holder)
  {
    var both := {(old', key), (a, key)};
    forall j | |h| <= j < |h'| ensures After(w, h'[j], both) {
      assert After(w, h'[j], few);
    }
    FollowsThen(w0, w, h, h', from, both);
    if a != old' {
      GuardSegment(w0, w, h, h', from, old', a, key, holder, few);
    }
  }

  /**
    After a run: keys not planned are where they were, completed ones at their new owner, the others at the old
    one.
   */
  ghost predicate Whereabouts(w0: World, w: World, old': string, ms: seq<Migration>) {
    && (forall k :: !Planned(ms, k) ==> StillAt(w0, w, old', old', k))
    && (forall x :: 0 <= x < |ms| ==> StillAt(w0, w, old', Holder(ms[x], old'), ms[x].key))
  }

  function Holder(m: Migration, old': string): string {
    if m.status.Complete? then m.newOwner.addr else old'
  }

  /** In an intermediate world: every key at the old owner, or a planned one at its new owner. */
  ghost predicate Secure(w0: World, w: World, old': string, ms: seq<Migration>) {
    && (forall k :: !Planned(ms, k) ==> StillAt(w0, w, old', old', k))
    && (forall x :: 0 <= x < |ms| ==> AtEither(w0, w, old', ms[x].newOwner.addr, ms[x].key))
  }

  predicate Readable(w: World, a: string, key: string, value: string) {
    Has(w, a, key) && w.stores[a][key].value == value
  }

  /** A secure world answers reads of every key the old owner held, with its value, until the floor of its expiry. */
  lemma SecureIsReadable(w0: World, w: World, old': string, ms: seq<Migration>, key: string)
    requires Secure(w0, w, old', ms) && old' in w0.stores && key in w0.stores[old']
    requires Current(w0.stores[old'][key], w.clock)
    ensures var value := w0.stores[old'][key].value;
            || Readable(w, old', key, value)
            || (exists x :: 0 <= x < |ms| && ms[x].key == key && Readable(w, ms[x].newOwner.addr, key, value))
  {
    var item := w0.stores[old'][key];
    assert At(w0, old', key, item);
    if Planned(ms, key) {
      var x :| 0 <= x < |ms| && ms[x].key == key;
      assert AtEither(w0, w, old', ms[x].newOwner.addr, ms[x].key);
      if At(w, ms[x].newOwner.addr, key, item) {
        AtIsReadable(w, ms[x].newOwner.addr, key, item);
      } else {
        AtIsReadable(w, old', key, item);
      }
    } else {
      assert StillAt(w0, w, old', old', key);
      AtIsReadable(w, old', key, item);
    }
  }

  ghost predicate AllSecure(w0: World, h: seq<World>, from: nat, old': string, ms: seq<Migration>) {
    from <= |h| && forall j :: from <= j < |h| ==> Secure(w0, h[j], old', ms)
  }

  /** The same migrations, whatever their status. */
  ghost predicate SameMoves(ms: seq<Migration>, ms': seq<Migration>) {
    |ms| == |ms'| && forall x :: 0 <= x < |ms| ==> ms'[x].key == ms[x].key && ms'[x].newOwner == ms[x].newOwner
  }

  lemma SameMovesPlanned(ms: seq<Migration>, ms': seq<Migration>, k: string)
    requires SameMoves(ms, ms')
    ensures Planned(ms, k) <==> Planned(ms', k)
  {
    if Planned(ms, k) {
      var x :| 0 <= x < |ms| && ms[x].key == k;
      assert ms'[x].key == k;
    }
  }

  ghost predicate DistinctMoves(ms: seq<Migration>, old': string) {
    && (forall x, y :: 0 <= x < y < |ms| ==> ms[x].key != ms[y].key)
    && (forall x :: 0 <= x < |ms| ==> ms[x].newOwner.addr != old')
  }

  ghost function Ends(m: Migration, old': string): set<(string, string)> {
    {(old', m.key), (m.newOwner.addr, m.key)}
  }

  /** One migration later nothing has been lost, whether it completed or not. */
  lemma MigrationStep(w0: World, w: World, h: seq<World>, h': seq<World>, from: nat, old': string,
                      ms: seq<Migration>, ms': seq<Migration>, x: nat)
    requires DistinctMoves(ms, old') && x < |ms| && !ms[x].status.Complete? && SameMoves(ms, ms')
    requires forall y :: 0 <= y < |ms| && y != x ==> ms'[y] == ms[y]
    requires Whereabouts(w0, w, old', ms) && AllSecure(w0, h, from, old', ms)
    requires h <= h' && |h| < |h'| && Follows(w, h', |h|, Ends(ms[x], old'))
    requires Guarded(w, h', |h|, old', ms[x].newOwner.addr, ms[x].key)
    requires StillAt(w, h'[|h'| - 1], old', Holder(ms'[x], old'), ms[x].key)
    ensures Whereabouts(w0, h'[|h'| - 1], old', ms') && AllSecure(w0, h', from, old', ms')
  {
    forall k ensures Planned(ms, k) <==> Planned(ms', k) {
      SameMovesPlanned(ms, ms', k);
    }
    var last := h'[|h'| - 1];
    forall k | !Planned(ms', k), j | |h| <= j < |h'| ensures StillAt(w0, h'[j], old', old', k) {
      OthersStay(w0, w, h'[j], old', old', k, ms[x]);
    }
    forall y | 0 <= y < |ms| ensures StillAt(w0, last, old', Holder(ms'[y], old'), ms'[y].key) {
      if y != x {
        OthersStay(w0, w, last, old', Holder(ms[y], old'), ms[y].key, ms[x]);
      }
    }
    forall j | from <= j < |h'| ensures Secure(w0, h'[j], old', ms') {
      if j < |h| {
        SecureAlike(w0, h[j], old', ms, ms');
      } else {
        forall y | 0 <= y < |ms| ensures AtEither(w0, h'[j], old', ms'[y].newOwner.addr, ms'[y].key) {
          if y != x {
            OthersStay(w0, w, h'[j], old', Holder(ms[y], old'), ms[y].key, ms[x]);
          } else {
            assert AtEither(w, h'[j], old', ms[x].newOwner.addr, ms[x].key);
          }
        }
      }
    }
  }

  lemma OthersStay(w0: World, w: World, v: World, old': string, a: string, k: string, m: Migration)
    requires StillAt(w0, w, old', a, k) && After(w, v, Ends(m, old')) && k != m.key
    ensures StillAt(w0, v, old', a, k)
  {
  }

  lemma SecureAlike(w0: World, w: World, old': string, ms: seq<Migration>, ms': seq<Migration>)
    requires SameMoves(ms, ms') && Secure(w0, w, old', ms)
    ensures Secure(w0, w, old', ms')
  {
    forall k ensures Planned(ms, k) <==> Planned(ms', k) {
      SameMovesPlanned(ms, ms', k);
    }
    forall x | 0 <= x < |ms| ensures AtEither(w0, w, old', ms'[x].newOwner.addr, ms'[x].key) {
      assert AtEither(w0, w, old', ms[x].newOwner.addr, ms[x].key);
    }
  }

  /** How many of the first `n` migrations have this status. */
  ghost function Count(ms: seq<Migration>, n: nat, status: Status): nat
    requires n <= |ms|
  {
    |set j | 0 <= j < n && ms[j].status == status|
  }

  lemma CountStep(ms: seq<Migration>, ms': seq<Migration>, i: nat, status: Status)
    requires i < |ms| == |ms'| && ms'[..i] == ms[..i]
    ensures Count(ms', i + 1, status) == Count(ms, i, status) + if ms'[i].status == status then 1 else 0
  {
    var some := set j | 0 <= j < i && ms[j].status == status;
    assert forall j :: 0 <= j < i ==> ms'[j] == ms'[..i][j] == ms[..i][j] == ms[j];
    assert (set j | 0 <= j < i + 1 && ms'[j].status == status) == some + if ms'[i].status == status then {i} else {};
  }
}
