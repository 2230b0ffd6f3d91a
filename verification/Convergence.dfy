/**
  What all runs of the rebalancing cluster guarantee. A node whose run had all its calls arrive keeps no
  misplaced key but those written back after a missed pull, and once every node has had such a run each
  key sits at its ring owner. If no node lists its keys while a list or a run of its own is outstanding,
  no pull misses a key whose original copies are current, and such keys are at their owners and nowhere
  else.
 */
module Convergence {
  import opened Lists
  import opened Expiry
  import opened StoreSpec
  import opened Topology
  import opened RebalanceSpec
  import opened Migrating
  import opened Provenance
  import R = RingSpec

  // ---------- Whole runs ----------

  ghost predicate Inv(c: Cluster, first: World, s: State) {
    && Orders(c, s) && Promised(c, s) && Traced(c, first, s)
    && NoneStray(c, Init(first), s)
  }

  lemma StepKeepsInv(c: Cluster, first: World, s: State, action: Action)
    requires c.Valid() && Inv(c, first, s) && Enabled(c, s, action)
    ensures Inv(c, first, Next(c, s, action))
  {
    OrdersStep(c, s, action);
    PromisedStep(c, s, action);
    TracedStep(c, first, s, action);
    StepStrays(c, s, action);
  }

  lemma {:induction false} RunKeepsInv(c: Cluster, first: World, actions: seq<Action>)
    requires c.Valid()
    ensures Inv(c, first, Run(c, Init(first), actions))
  {
    if actions == [] {
      InitInv(c, first);
    } else {
      var init, action := actions[..|actions| - 1], actions[|actions| - 1];
      RunKeepsInv(c, first, init);
      var s := Run(c, Init(first), init);
      if Enabled(c, s, action) {
        StepKeepsInv(c, first, s, action);
      }
    }
  }

  lemma InitInv(c: Cluster, first: World)
    ensures Inv(c, first, Init(first))
  {
    var s := Init(first);
    forall a, k ensures CopyStems(first, s, a, k) {
      if Has(first, a, k) {
        assert Stem(first, a, k, first.stores[a][k].value, first.stores[a][k].expiresAt, first.clock);
      }
    }
    forall k | Held(first, k) ensures Safe(s, k) {
      var a :| Has(first, a, k);
      assert Has(s.world, a, k) && (a, k) !in s.repaired;
    }
  }

  /** Every unexpired copy of the key has this value. */
  ghost predicate Agreed(w: World, k: string, value: string) {
    forall a :: Has(w, a, k) ==> w.stores[a][k].value == value
  }

  /**
    At any time in any run: a copy is misplaced only if it was so at the start or has been written
    back; a key stays held as long as none of its original copies has reached the floor of its expiry;
    and every copy has value and expiry of an original one, so that values on which all copies agreed
    are kept. Only a key of which a pull was answered by a replica may lose its expiry early.
   */
  lemma RunsConserve(c: Cluster, first: World, actions: seq<Action>, k: string, value: string)
    requires c.Valid()
    ensures var s := Run(c, Init(first), actions);
            && Misplaced(c, s.world) <= Misplaced(c, first) + s.repaired
            && (Held(first, k) && Fresh(first, k, s.world.clock) ==> Held(s.world, k))
            && (forall a :: CopyStems(first, s, a, k))
            && (Agreed(first, k, value) ==> Agreed(s.world, k, value))
  {
    RunKeepsInv(c, first, actions);
    var s := Run(c, Init(first), actions);
    MisplacedMembers(c, first);
    MisplacedMembers(c, s.world);
    forall p | p in Misplaced(c, s.world) ensures p in Misplaced(c, first) + s.repaired {
      assert p !in s.repaired ==> Left(c, s, p.0, p.1) && Left(c, Init(first), p.0, p.1);
    }
    forall a | Agreed(first, k, value) && Has(s.world, a, k) ensures s.world.stores[a][k].value == value {
      var copy := s.world.stores[a][k];
      assert CopyStems(first, s, a, k);
      StemsMixed(first, k, copy.value, copy.expiresAt, s.world.clock, k in s.borrowed);
    }
  }

  /** The write-backs whose copy is still held. */
  ghost function Lingering(s: State): set<(string, string)> {
    set p | p in s.repaired && Has(s.world, p.0, p.1)
  }

  /**
    Once every node has finished a run in which all its calls arrived, whatever else happened and
    however the runs overlapped: each key whose original copies are still current sits at its owner,
    the misplaced copies are exactly the lingering write-backs, and a node plans nothing more exactly
    if none of them is its own.
   */
  lemma RunsConverge(c: Cluster, first: World, actions: seq<Action>)
    requires c.Valid() && c.Serves(first.stores)
    requires forall m <- c.members :: m.addr in Run(c, Init(first), actions).cleared
    ensures var s := Run(c, Init(first), actions);
            && Misplaced(c, s.world) == Lingering(s)
            && (forall p <- Lingering(s) :: p.1 in s.borrowed)
            && (forall k :: Held(first, k) && Fresh(first, k, s.world.clock) ==> Has(s.world, c.Home(k), k))
            && (forall m <- c.members, keys :: Listing(s.world, m.addr, keys) ==>
                  (Plan(c.owner, m.id, keys) == [] <==> forall p <- Lingering(s) :: p.0 != m.addr))
  {
    var s := Run(c, Init(first), actions);
    RunKeepsInv(c, first, actions);
    Settled(c, first, s);
    forall m <- c.members, keys | Listing(s.world, m.addr, keys)
      ensures Plan(c.owner, m.id, keys) == [] <==> forall p <- Lingering(s) :: p.0 != m.addr
    {
      SettledPlan(c, s, m, keys);
    }
  }

  lemma Settled(c: Cluster, first: World, s: State)
    requires Inv(c, first, s) && c.Serves(first.stores) && forall m <- c.members :: m.addr in s.cleared
    ensures Misplaced(c, s.world) == Lingering(s)
    ensures forall p <- Lingering(s) :: p.1 in s.borrowed
    ensures forall k :: Held(first, k) && Fresh(first, k, s.world.clock) ==> Has(s.world, c.Home(k), k)
  {
    MisplacedMembers(c, s.world);
    forall a, k ensures Astray(c, s.world, a, k) <==> (a, k) in Lingering(s) {
      SettledCopy(c, first, s, a, k);
    }
    forall k | Held(first, k) && Fresh(first, k, s.world.clock) ensures Has(s.world, c.Home(k), k) {
      var a :| Has(s.world, a, k) && (a, k) !in s.repaired;
      SettledCopy(c, first, s, a, k);
    }
  }

  lemma SettledPlan(c: Cluster, s: State, m: R.Node, keys: seq<string>)
    requires c.Valid() && m in c.members && Listing(s.world, m.addr, keys) && Misplaced(c, s.world) == Lingering(s)
    ensures Plan(c.owner, m.id, keys) == [] <==> forall p <- Lingering(s) :: p.0 != m.addr
  {
    PlanEmptyIff(c, s.world, m, keys);
    MisplacedMembers(c, s.world);
    assert forall k :: Astray(c, s.world, m.addr, k) <==> (m.addr, k) in Lingering(s);
  }

  /** At a cleared node only written-back copies are misplaced. */
  lemma SettledCopy(c: Cluster, first: World, s: State, a: string, k: string)
    requires Inv(c, first, s) && c.Serves(first.stores) && forall m <- c.members :: m.addr in s.cleared
    ensures Has(s.world, a, k) && (a, k) !in s.repaired ==> a == c.Home(k)
    ensures (a, k) in s.repaired ==> a != c.Home(k)
  {
    if Has(s.world, a, k) {
      assert a in first.stores;
      var m :| m in c.members && m.addr == a;
      assert !Left(c, s, a, k);
    }
  }

  lemma PlanEmptyIff(c: Cluster, w: World, m: R.Node, keys: seq<string>)
    requires c.Valid() && m in c.members && Listing(w, m.addr, keys)
    ensures Plan(c.owner, m.id, keys) == [] <==> forall k :: !Astray(c, w, m.addr, k)
  {
    var plan := Plan(c.owner, m.id, keys);
    PlanMembers(c.owner, m.id, keys);
    if plan != [] {
      PlanListed(c.owner, m.id, keys, 0);
      c.HomeIsOwner(m, plan[0].key);
      assert Astray(c, w, m.addr, plan[0].key);
    }
    if k :| Astray(c, w, m.addr, k) {
      c.HomeIsOwner(m, k);
      assert Planned(plan, k);
    }
  }

  // ---------- Orderly runs ----------

  /** What a node heeds before it lists its keys: that no run of its own is going on, that no list is pending. */
  datatype Care = Care(runs: bool, lists: bool)

  predicate Unlisted(s: State, a: string) {
    forall l <- s.listed :: l.m.addr != a
  }

  predicate Heeds(s: State, action: Action, care: Care) {
    action.List? ==>
      && (care.runs ==> action.m.addr !in s.jobs)
      && (care.lists ==> Unlisted(s, action.m.addr))
  }

  ghost predicate Careful(c: Cluster, s: State, actions: seq<Action>, care: Care) {
    actions == [] ||
    var init, action := actions[..|actions| - 1], actions[|actions| - 1];
    Careful(c, s, init, care) && Heeds(Run(c, s, init), action, care)
  }

  /** No node lists its keys while a list or a run of its own is outstanding. */
  ghost predicate Orderly(c: Cluster, s: State, actions: seq<Action>) {
    Careful(c, s, actions, Care(true, true))
  }

  predicate OrderlyStep(s: State, action: Action) {
    Heeds(s, action, Care(true, true))
  }

  lemma RunThen(c: Cluster, s: State, actions: seq<Action>, action: Action, care: Care)
    ensures Run(c, s, actions + [action]) == Took(c, Run(c, s, actions), action)
    ensures Careful(c, s, actions + [action], care)
            <==> Careful(c, s, actions, care) && Heeds(Run(c, s, actions), action, care)
  {
    assert (actions + [action])[..|actions|] == actions;
  }

  /** The fresh keys that a node has listed, or has planned to move and not moved yet, are held by it. */
  ghost predicate InSight(first: World, s: State, a: string) {
    && ListsInSight(first, s, a)
    && (a in s.jobs ==> JobInSight(first, s, a, s.jobs[a]))
  }

  /** There is at most one list of the node, and none while it has a run. */
  ghost predicate ListsInSight(first: World, s: State, a: string) {
    && (forall l <- s.listed | l.m.addr == a :: a !in s.jobs && s.listed[l] == 1 && ListInSight(first, s, a, l.keys))
    && (forall l <- s.listed, l' <- s.listed | l.m.addr == a && l'.m.addr == a :: l == l')
  }

  ghost predicate ListInSight(first: World, s: State, a: string, keys: seq<string>) {
    forall k <- keys :: Fresh(first, k, s.world.clock) ==> Has(s.world, a, k)
  }

  ghost predicate JobInSight(first: World, s: State, a: string, j: Job) {
    forall x :: j.next <= x < |j.plan| && Fresh(first, j.plan[x].key, s.world.clock) ==>
      Has(s.world, a, j.plan[x].key) && !(x == j.next && j.stage.Missed?)
  }

  /** No fresh key has been borrowed, and none is out of sight. */
  ghost predicate OnTime(first: World, s: State) {
    && (forall a :: InSight(first, s, a))
    && forall k <- s.borrowed :: !Fresh(first, k, s.world.clock)
  }

  /** Fresh copies stay where they are, but for the one a job at `a` has just handed over. */
  ghost predicate FreshStay(first: World, s: State, t: State, a: string, key: string) {
    && s.world.clock <= t.world.clock
    && forall b, k :: (b, k) != (a, key) && Fresh(first, k, t.world.clock) && Has(s.world, b, k) ==> Has(t.world, b, k)
  }

  lemma PutFreshStay(c: Cluster, first: World, s: State, t: State, b: string, k: string, item: Item, a: string,
                     key: string)
    requires Puts(s.world, t.world, b, k, item)
    requires Fresh(first, k, s.world.clock) ==> !Expired(item.expiresAt, s.world.clock)
    ensures FreshStay(first, s, t, a, key)
  {
    forall d, x | Fresh(first, x, s.world.clock) && Has(s.world, d, x) ensures Has(t.world, d, x) {
      assert (d, x) != (b, k) ==> SameStored(s.world, t.world, d, x);
    }
  }

  lemma PushFreshStay(c: Cluster, first: World, s: State, a: string, outcome: Outcome, key: string)
    requires Enabled(c, s, Push(a, outcome)) && JobInHand(c, first, s, a)
    ensures FreshStay(first, s, PushStep(s, a, outcome), a, key)
  {
    var k, p, t, home := AtStake(s, a).key, s.jobs[a].stage.reply, PushStep(s, a, outcome), AtStake(s, a).newOwner.addr;
    if !outcome.Lost? {
      if Fresh(first, k, s.world.clock) {
        StemsAlive(first, k, p.value, Decode(p.ms), s.world.clock, k in s.borrowed);
      }
      PutFreshStay(c, first, s, t, home, k, t.world.stores[home][k], a, key);
    }
  }

  lemma RepairFreshStay(c: Cluster, first: World, s: State, r: Repair, a: string, key: string)
    requires RepairsOk(c, s) && OnTime(first, s) && Enabled(c, s, WriteBack(r))
    ensures FreshStay(first, s, RepairStep(s, r), a, key)
  {
    var t := RepairStep(s, r);
    assert r.key in s.borrowed;
    PutFreshStay(c, first, s, t, r.at, r.key, t.world.stores[r.at][r.key], a, key);
  }

  lemma ElapseFreshStay(c: Cluster, first: World, s: State, later: Time, swept: set<string>, a: string, key: string)
    requires Inv(c, first, s) && later >= s.world.clock
    ensures FreshStay(first, s, s.(world := Elapsed(s.world, later, swept)), a, key)
  {
    forall b, k | Fresh(first, k, later) && Has(s.world, b, k) ensures Has(Elapsed(s.world, later, swept), b, k) {
      FreshCopyStays(first, s, b, k, later, swept);
    }
  }

  lemma StayFreshStay(first: World, s: State, t: State, a: string, key: string)
    requires t.world.clock == s.world.clock
    requires forall b, k :: (b, k) != (a, key) && Has(s.world, b, k) ==> Has(t.world, b, k)
    ensures FreshStay(first, s, t, a, key)
  {
  }

  /** Only a completion takes a fresh copy away. */
  lemma MovingFreshStay(c: Cluster, first: World, s: State, action: Action, a: string)
    requires Traced(c, first, s) && Enabled(c, s, action) && Mover(action) == Some(a)
    ensures FreshStay(first, s, Next(c, s, action), a, AtStake(s, a).key)
  {
    var t, key := Next(c, s, action), AtStake(s, a).key;
    if action.Push? {
      PushFreshStay(c, first, s, a, action.outcome, key);
    } else {
      StayFreshStay(first, s, t, a, key);
    }
  }

  lemma StaysInSight(first: World, s: State, t: State, a: string, b: string, key: string)
    requires InSight(first, s, a) && FreshStay(first, s, t, b, key) && a != b
    requires t.listed == s.listed
    requires a in t.jobs <==> a in s.jobs
    requires a in t.jobs ==> t.jobs[a] == s.jobs[a]
    ensures InSight(first, t, a)
  {
    forall k | Fresh(first, k, t.world.clock) ensures Fresh(first, k, s.world.clock) {
      FreshEarlier(first, k, s.world.clock, t.world.clock);
    }
  }

  /** A job that moves keeps what it has yet to move in sight, and borrows no fresh key. */
  lemma OwnInSight(first: World, s: State, t: State, a: string)
    requires InSight(first, s, a) && JobStep(s, t, a) && FreshStay(first, s, t, a, AtStake(s, a).key)
    requires forall x, y :: 0 <= x < y < |s.jobs[a].plan| ==> s.jobs[a].plan[x].key != s.jobs[a].plan[y].key
    ensures InSight(first, t, a)
    ensures Fresh(first, AtStake(s, a).key, s.world.clock) ==> t.borrowed == s.borrowed
  {
    var j := s.jobs[a];
    forall x | t.jobs[a].next <= x < |j.plan| && Fresh(first, j.plan[x].key, s.world.clock)
      ensures Has(t.world, a, j.plan[x].key) && !(x == t.jobs[a].next && t.jobs[a].stage.Missed?)
    {
      assert Has(s.world, a, j.plan[x].key);
      assert x != j.next ==> j.plan[x].key != AtStake(s, a).key;
    }
  }

  lemma MovingOnTime(c: Cluster, first: World, s: State, action: Action, a: string)
    requires Inv(c, first, s) && OnTime(first, s) && Enabled(c, s, action) && Mover(action) == Some(a)
    ensures OnTime(first, Next(c, s, action))
  {
    MovingIsStep(c, s, action, a);
    MovingFreshStay(c, first, s, action, a);
    MovedOnTime(c, first, s, Next(c, s, action), a);
  }

  lemma MovedOnTime(c: Cluster, first: World, s: State, t: State, a: string)
    requires JobsOk(c, s) && OnTime(first, s) && JobStep(s, t, a) && FreshStay(first, s, t, a, AtStake(s, a).key)
    ensures OnTime(first, t)
  {
    assert JobOk(c, a, s.jobs[a]) && InSight(first, s, a);
    OwnInSight(first, s, t, a);
    OthersInSight(first, s, t, a, AtStake(s, a).key);
  }

  lemma OthersInSight(first: World, s: State, t: State, a: string, key: string)
    requires OnTime(first, s) && MovesOnly(s, t, a) && FreshStay(first, s, t, a, key) && InSight(first, t, a)
    ensures forall b :: InSight(first, t, b)
  {
    forall b ensures InSight(first, t, b) {
      if b != a {
        StaysInSight(first, s, t, b, a, key);
      }
    }
  }

  /** Time and write-backs move no job. */
  lemma OutsideOnTime(first: World, s: State, t: State)
    requires OnTime(first, s) && t.listed == s.listed && t.jobs == s.jobs && t.borrowed == s.borrowed
    requires forall a, key :: FreshStay(first, s, t, a, key)
    ensures OnTime(first, t)
  {
    forall b ensures InSight(first, t, b) {
      assert |b| < |b + "x"|;
      StaysInSight(first, s, t, b, b + "x", "");
    }
    forall k <- t.borrowed ensures !Fresh(first, k, t.world.clock) {
      assert FreshStay(first, s, t, "", "");
      if Fresh(first, k, t.world.clock) {
        FreshEarlier(first, k, s.world.clock, t.world.clock);
      }
    }
  }

  /** A new list names what the node holds; there is no other. */
  lemma ListOnTime(c: Cluster, first: World, s: State, m: R.Node, keys: seq<string>, b: string)
    requires InSight(first, s, b) && Enabled(c, s, List(m, keys)) && OrderlyStep(s, List(m, keys))
    ensures InSight(first, s.(listed := s.listed + multiset{KeyList(m, keys)}), b)
  {
    var t := s.(listed := s.listed + multiset{KeyList(m, keys)});
    assert forall l <- t.listed :: l in s.listed || l == KeyList(m, keys);
  }

  /** Once its only list is taken, the node has none left. */
  lemma TakenOnTime(first: World, s: State, list: KeyList, b: string)
    requires InSight(first, s, b) && list in s.listed
    ensures InSight(first, s.(listed := s.listed - multiset{list}), b)
    ensures list.m.addr == b ==> Unlisted(s.(listed := s.listed - multiset{list}), b)
  {
    var rest := s.listed - multiset{list};
    assert forall l <- rest :: l in s.listed && rest[l] <= s.listed[l];
  }

  /** A plan names listed keys. */
  lemma StartOnTime(c: Cluster, first: World, s: State, list: KeyList, b: string)
    requires InSight(first, s, b) && Enabled(c, s, Start(list))
    ensures InSight(first, Next(c, s, Start(list)), b)
  {
    var t := Next(c, s, Start(list));
    TakenOnTime(first, s, list, b);
    if list.m.addr == b {
      forall x | 0 <= x < |t.jobs[b].plan| ensures t.jobs[b].plan[x].key in list.keys {
        PlanListed(c.owner, list.m.id, list.keys, x);
      }
    }
  }

  lemma TurnOnTime(c: Cluster, first: World, s: State, action: Action)
    requires OnTime(first, s) && Enabled(c, s, action) && OrderlyStep(s, action)
    requires action.List? || action.Start? || action.Refuse? || action.End?
    ensures OnTime(first, Next(c, s, action))
  {
    forall b ensures InSight(first, Next(c, s, action), b) {
      assert InSight(first, s, b);
      match action
      case List(m, keys) => ListOnTime(c, first, s, m, keys, b);
      case Start(list) => StartOnTime(c, first, s, list, b);
      case Refuse(list) => TakenOnTime(first, s, list, b);
      case _ =>
    }
  }

  lemma OnTimeStep(c: Cluster, first: World, s: State, action: Action)
    requires Inv(c, first, s) && OnTime(first, s) && Enabled(c, s, action) && OrderlyStep(s, action)
    ensures OnTime(first, Next(c, s, action))
  {
    if Mover(action).Some? {
      var a := Mover(action).value;
      MovingOnTime(c, first, s, action, a);
    } else if action.Elapse? {
      forall a, key ensures FreshStay(first, s, Next(c, s, action), a, key) {
        ElapseFreshStay(c, first, s, action.later, action.swept, a, key);
      }
      OutsideOnTime(first, s, Next(c, s, action));
    } else if action.WriteBack? {
      forall a, key ensures FreshStay(first, s, Next(c, s, action), a, key) {
        RepairFreshStay(c, first, s, action.repair, a, key);
      }
      OutsideOnTime(first, s, Next(c, s, action));
    } else {
      TurnOnTime(c, first, s, action);
    }
  }

  lemma {:induction false} OrderlyOnTime(c: Cluster, first: World, actions: seq<Action>)
    requires c.Valid() && Orderly(c, Init(first), actions)
    ensures OnTime(first, Run(c, Init(first), actions))
  {
    if actions != [] {
      var init, action := actions[..|actions| - 1], actions[|actions| - 1];
      OrderlyOnTime(c, first, init);
      RunKeepsInv(c, first, init);
      var s := Run(c, Init(first), init);
      if Enabled(c, s, action) {
        OnTimeStep(c, first, s, action);
      }
    }
  }

  /**
    As long as no node lists its keys while a list or a run of its own is outstanding, no pull misses a key
    whose original copies are current: after all nodes have finished a run in which all calls arrived, each
    such key is held by its owner and by nobody else, with value and expiry of an original copy.
   */
  lemma OrderlyRunsConverge(c: Cluster, first: World, actions: seq<Action>, k: string)
    requires c.Valid() && c.Serves(first.stores) && Orderly(c, Init(first), actions)
    requires forall m <- c.members :: m.addr in Run(c, Init(first), actions).cleared
    requires Held(first, k) && Fresh(first, k, Run(c, Init(first), actions).world.clock)
    ensures var w := Run(c, Init(first), actions).world;
            && Has(w, c.Home(k), k) && (forall a :: Has(w, a, k) ==> a == c.Home(k))
            && exists b :: Stem(first, b, k, w.stores[c.Home(k)][k].value, w.stores[c.Home(k)][k].expiresAt, w.clock)
  {
    var s := Run(c, Init(first), actions);
    OrderlyOnTime(c, first, actions);
    RunKeepsInv(c, first, actions);
    RunsConverge(c, first, actions);
    assert k !in s.borrowed;
    forall a | Has(s.world, a, k) ensures a == c.Home(k) {
      SettledCopy(c, first, s, a, k);
    }
    assert CopyStems(first, s, c.Home(k), k);
  }
}
