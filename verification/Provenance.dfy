/**
  Where copies come from while nodes rebalance: value and expiry of each copy, and of whatever a job
  has in hand, are those of a copy held at the start, and no key dies out.
 */
module Provenance {
  import opened Lists
  import opened Expiry
  import opened StoreSpec
  import opened Topology
  import opened RebalanceSpec
  import opened Migrating
  import R = RingSpec

  // ---------- Where copies come from ----------

  /**
    Value and expiry are those of the copy at `b` in `first`, the expiry as transferred or, once that copy has
    expired, lost.
   */
  predicate Stem(first: World, b: string, k: string, value: string, expiresAt: Time, now: Time) {
    && ValueOf(first, b, k, value)
    && (Matches(first.stores[b][k].expiresAt, expiresAt) || (expiresAt == NEVER && !Current(first.stores[b][k], now)))
  }

  predicate ValueOf(first: World, b: string, k: string, value: string) {
    Has(first, b, k) && first.stores[b][k].value == value
  }

  predicate ExpiryOf(first: World, b: string, k: string, expiresAt: Time) {
    Has(first, b, k) && Matches(first.stores[b][k].expiresAt, expiresAt)
  }

  /** The expiry is that of some copy in `first`, as transferred, or none. */
  ghost predicate Untied(first: World, k: string, expiresAt: Time) {
    expiresAt == NEVER || exists b :: ExpiryOf(first, b, k, expiresAt)
  }

  /**
    What is known of a borrowed key: value and expiry may come from two copies, and the expiry may be lost at
    any time.
   */
  ghost predicate Mixed(first: World, k: string, value: string, expiresAt: Time) {
    (exists b :: ValueOf(first, b, k, value)) && Untied(first, k, expiresAt)
  }

  ghost predicate Stems(first: World, k: string, value: string, expiresAt: Time, now: Time, borrowed: bool) {
    if borrowed then Mixed(first, k, value, expiresAt) else exists b :: Stem(first, b, k, value, expiresAt, now)
  }

  /** All copies that `first` has of the key are still current. */
  ghost predicate Fresh(first: World, k: string, now: Time) {
    forall b :: Has(first, b, k) ==> Current(first.stores[b][k], now)
  }

  ghost predicate Held(w: World, k: string) {
    exists a :: Has(w, a, k)
  }

  lemma StemsMixed(first: World, k: string, value: string, expiresAt: Time, now: Time, borrowed: bool)
    requires Stems(first, k, value, expiresAt, now, borrowed)
    ensures Mixed(first, k, value, expiresAt)
  {
    if !borrowed {
      var b :| Stem(first, b, k, value, expiresAt, now);
      assert ValueOf(first, b, k, value);
      assert expiresAt != NEVER ==> ExpiryOf(first, b, k, expiresAt);
    }
  }

  lemma StemsLater(first: World, k: string, value: string, expiresAt: Time, now: Time, later: Time, before: bool,
                   after: bool)
    requires Stems(first, k, value, expiresAt, now, before) && now <= later && (before ==> after)
    ensures Stems(first, k, value, expiresAt, later, after)
  {
    StemsMixed(first, k, value, expiresAt, now, before);
    if !after {
      var b :| Stem(first, b, k, value, expiresAt, now);
      assert Stem(first, b, k, value, expiresAt, later);
    }
  }

  lemma MatchAlive(t: Time, copied: Time, now: Time)
    requires Matches(t, copied) && (t == NEVER || now < Floor(t))
    ensures !Expired(copied, now)
  {
    ChainAliveBeforeFloor(t, 0, now);
    ChainAliveBeforeFloor(t, 1, now);
    assert Hops(t, 0) == t && Hops(t, 1) == Hop(t);
  }

  lemma UntiedAlive(first: World, k: string, expiresAt: Time, now: Time)
    requires Untied(first, k, expiresAt) && Fresh(first, k, now)
    ensures !Expired(expiresAt, now)
  {
    if expiresAt != NEVER {
      var b :| ExpiryOf(first, b, k, expiresAt);
      MatchAlive(first.stores[b][k].expiresAt, expiresAt, now);
    }
  }

  lemma StemsAlive(first: World, k: string, value: string, expiresAt: Time, now: Time, borrowed: bool)
    requires Stems(first, k, value, expiresAt, now, borrowed) && Fresh(first, k, now)
    ensures !Expired(expiresAt, now)
  {
    StemsMixed(first, k, value, expiresAt, now, borrowed);
    UntiedAlive(first, k, expiresAt, now);
  }

  lemma UntiedHop(first: World, k: string, expiresAt: Time)
    requires Untied(first, k, expiresAt)
    ensures Untied(first, k, Hop(expiresAt))
  {
    HopIsFloor(NEVER);
    if expiresAt != NEVER {
      var b :| ExpiryOf(first, b, k, expiresAt);
      MatchesHop(first.stores[b][k].expiresAt, expiresAt);
      assert ExpiryOf(first, b, k, Hop(expiresAt));
    }
  }

  /** A transferred copy stems from the same origin. */
  lemma StemsHop(first: World, k: string, value: string, expiresAt: Time, now: Time, borrowed: bool)
    requires Stems(first, k, value, expiresAt, now, borrowed)
    ensures Stems(first, k, value, Hop(expiresAt), now, borrowed)
  {
    if borrowed {
      UntiedHop(first, k, expiresAt);
    } else {
      var b :| Stem(first, b, k, value, expiresAt, now);
      HopIsFloor(NEVER);
      if Matches(first.stores[b][k].expiresAt, expiresAt) {
        MatchesHop(first.stores[b][k].expiresAt, expiresAt);
      }
      assert Stem(first, b, k, value, Hop(expiresAt), now);
    }
  }

  /** The expiry is lost only after the copy has expired. */
  lemma StemsLost(first: World, k: string, value: string, expiresAt: Time, now: Time)
    requires Stems(first, k, value, expiresAt, now, false) && Expired(expiresAt, now)
    ensures Stems(first, k, value, NEVER, now, false)
  {
    var b :| Stem(first, b, k, value, expiresAt, now);
    if Current(first.stores[b][k], now) {
      MatchAlive(first.stores[b][k].expiresAt, expiresAt, now);
    }
    assert Stem(first, b, k, value, NEVER, now);
  }

  ghost predicate CopyStems(first: World, s: State, a: string, k: string) {
    Has(s.world, a, k) ==>
      var copy := s.world.stores[a][k];
      Stems(first, k, copy.value, copy.expiresAt, s.world.clock, k in s.borrowed)
  }

  ghost predicate CopiesStem(first: World, s: State) {
    forall a, k :: CopyStems(first, s, a, k)
  }

  /** The expiry that is about to be read: that of `copy`, unless that has expired or the key is a borrowed one. */
  ghost predicate ExpiryInReach(first: World, s: State, a: string, k: string, copy: Item) {
    if k in s.borrowed then Stored(s.world, a, k) ==> Untied(first, k, s.world.stores[a][k].expiresAt)
    else if Stored(s.world, a, k) then s.world.stores[a][k] == copy
    else Expired(copy.expiresAt, s.world.clock)
  }

  /** What a job has in hand for its current key. */
  ghost predicate InHand(c: Cluster, first: World, s: State, a: string, k: string, stage: Stage) {
    match stage
    case Asking => true
    case Missed(_) => true
    case Halfway(copy) =>
      Stems(first, k, copy.value, copy.expiresAt, s.world.clock, k in s.borrowed) && ExpiryInReach(first, s, a, k, copy)
    case Ready(reply) => Stems(first, k, reply.value, Decode(reply.ms), s.world.clock, k in s.borrowed)
    case Pushed => Fresh(first, k, s.world.clock) ==> Has(s.world, c.Home(k), k)
  }

  ghost predicate JobInHand(c: Cluster, first: World, s: State, a: string)
    requires a in s.jobs
  {
    var j := s.jobs[a];
    j.next < |j.plan| ==> InHand(c, first, s, a, j.plan[j.next].key, j.stage)
  }

  /** A copy is held that is not just a write-back. */
  ghost predicate Safe(s: State, k: string) {
    exists a :: Has(s.world, a, k) && (a, k) !in s.repaired
  }

  /** No key dies out while it is fresh. */
  ghost predicate Kept(first: World, s: State) {
    forall k :: Held(first, k) && Fresh(first, k, s.world.clock) ==> Safe(s, k)
  }

  ghost predicate RepairsStem(first: World, s: State) {
    forall r <- s.repairs :: Mixed(first, r.key, r.value, r.expiresAt)
  }

  ghost predicate Traced(c: Cluster, first: World, s: State) {
    && CopiesStem(first, s) && Kept(first, s) && RepairsStem(first, s)
    && forall a <- s.jobs :: JobInHand(c, first, s, a)
  }

  // ---------- Each step keeps them ----------

  lemma FreshEarlier(first: World, k: string, now: Time, later: Time)
    requires now <= later && Fresh(first, k, later)
    ensures Fresh(first, k, now)
  {
  }

  lemma FreshCopyStays(first: World, s: State, a: string, k: string, later: Time, swept: set<string>)
    requires CopiesStem(first, s) && Has(s.world, a, k) && s.world.clock <= later && Fresh(first, k, later)
    ensures Has(Elapsed(s.world, later, swept), a, k)
  {
    var copy, mixed := s.world.stores[a][k], k in s.borrowed;
    assert CopyStems(first, s, a, k);
    StemsLater(first, k, copy.value, copy.expiresAt, s.world.clock, later, mixed, mixed);
    StemsAlive(first, k, copy.value, copy.expiresAt, later, mixed);
  }

  lemma ElapseInHand(c: Cluster, first: World, s: State, t: State, a: string, k: string, stage: Stage,
                     swept: set<string>)
    requires CopiesStem(first, s) && InHand(c, first, s, a, k, stage) && s.world.clock <= t.world.clock
    requires t == s.(world := Elapsed(s.world, t.world.clock, swept))
    ensures InHand(c, first, t, a, k, stage)
  {
    var now, later, mixed := s.world.clock, t.world.clock, k in s.borrowed;
    match stage
    case Asking =>
    case Missed(_) =>
    case Halfway(copy) => StemsLater(first, k, copy.value, copy.expiresAt, now, later, mixed, mixed);
    case Ready(reply) => StemsLater(first, k, reply.value, Decode(reply.ms), now, later, mixed, mixed);
    case Pushed =>
      if Fresh(first, k, later) {
        FreshEarlier(first, k, now, later);
        FreshCopyStays(first, s, c.Home(k), k, later, swept);
      }
  }

  lemma ElapseStems(first: World, s: State, t: State, later: Time, swept: set<string>)
    requires CopiesStem(first, s) && s.world.clock <= later && t == s.(world := Elapsed(s.world, later, swept))
    ensures CopiesStem(first, t)
  {
    forall a, k ensures CopyStems(first, t, a, k) {
      assert CopyStems(first, s, a, k);
      if Has(t.world, a, k) {
        var copy, mixed := s.world.stores[a][k], k in s.borrowed;
        StemsLater(first, k, copy.value, copy.expiresAt, s.world.clock, later, mixed, mixed);
      }
    }
  }

  lemma ElapseKept(first: World, s: State, t: State, later: Time, swept: set<string>)
    requires CopiesStem(first, s) && Kept(first, s) && s.world.clock <= later
             && t == s.(world := Elapsed(s.world, later, swept))
    ensures Kept(first, t)
  {
    forall k | Held(first, k) && Fresh(first, k, later) ensures Safe(t, k) {
      FreshEarlier(first, k, s.world.clock, later);
      var a :| Has(s.world, a, k) && (a, k) !in s.repaired;
      FreshCopyStays(first, s, a, k, later, swept);
    }
  }

  lemma ElapseTraced(c: Cluster, first: World, s: State, later: Time, swept: set<string>)
    requires Traced(c, first, s) && s.world.clock <= later
    ensures Traced(c, first, s.(world := Elapsed(s.world, later, swept)))
  {
    var t := s.(world := Elapsed(s.world, later, swept));
    ElapseStems(first, s, t, later, swept);
    ElapseKept(first, s, t, later, swept);
    forall a <- s.jobs ensures JobInHand(c, first, t, a) {
      var j := s.jobs[a];
      assert JobInHand(c, first, s, a);
      if j.next < |j.plan| {
        ElapseInHand(c, first, s, t, a, j.plan[j.next].key, j.stage, swept);
      }
    }
  }

  predicate SameStored(w: World, v: World, a: string, k: string) {
    if Stored(w, a, k) then Stored(v, a, k) && v.stores[a][k] == w.stores[a][k] else !Stored(v, a, k)
  }

  /**
    A step at `a` leaves what the other jobs have in hand alone: misplaced copies elsewhere, and fresh copies at
    home.
   */
  ghost predicate OthersUndisturbed(c: Cluster, first: World, s: State, t: State, a: string) {
    && t.world.clock == s.world.clock && s.borrowed <= t.borrowed
    && (forall b, k :: b != a && c.Home(k) != b ==> SameStored(s.world, t.world, b, k))
    && (forall k :: Fresh(first, k, s.world.clock) && Has(s.world, c.Home(k), k) ==> Has(t.world, c.Home(k), k))
  }

  lemma OtherInHand(c: Cluster, first: World, s: State, t: State, a: string, b: string, k: string, stage: Stage)
    requires OthersUndisturbed(c, first, s, t, a) && b != a && c.Home(k) != b
    requires InHand(c, first, s, b, k, stage)
    ensures InHand(c, first, t, b, k, stage)
  {
    var now, before, after := s.world.clock, k in s.borrowed, k in t.borrowed;
    assert SameStored(s.world, t.world, b, k);
    match stage
    case Halfway(copy) =>
      StemsLater(first, k, copy.value, copy.expiresAt, now, now, before, after);
      StemsMixed(first, k, copy.value, copy.expiresAt, now, before);
    case Ready(reply) => StemsLater(first, k, reply.value, Decode(reply.ms), now, now, before, after);
    case _ =>
  }

  lemma JobStepTraced(c: Cluster, first: World, s: State, t: State, a: string)
    requires JobsOk(c, s) && Traced(c, first, s) && MovesOnly(s, t, a)
    requires OthersUndisturbed(c, first, s, t, a)
    requires CopiesStem(first, t) && Kept(first, t) && RepairsStem(first, t) && JobInHand(c, first, t, a)
    ensures Traced(c, first, t)
  {
    forall b <- t.jobs ensures JobInHand(c, first, t, b) {
      if b != a {
        var j := s.jobs[b];
        assert JobInHand(c, first, s, b) && JobOk(c, b, j);
        if j.next < |j.plan| {
          OtherInHand(c, first, s, t, a, b, j.plan[j.next].key, j.stage);
        }
      }
    }
  }

  /** Copies stem from where they did if no unexpired one has appeared or changed. */
  lemma CopiesStay(first: World, s: State, t: State)
    requires CopiesStem(first, s) && t.world.clock == s.world.clock && s.borrowed <= t.borrowed
    requires forall a, k :: Has(t.world, a, k) ==> Has(s.world, a, k) && t.world.stores[a][k] == s.world.stores[a][k]
    ensures CopiesStem(first, t)
  {
    forall a, k ensures CopyStems(first, t, a, k) {
      assert CopyStems(first, s, a, k);
      if Has(t.world, a, k) {
        var copy, now := s.world.stores[a][k], s.world.clock;
        StemsLater(first, k, copy.value, copy.expiresAt, now, now, k in s.borrowed, k in t.borrowed);
      }
    }
  }

  lemma KeptStays(first: World, s: State, t: State)
    requires Kept(first, s) && t.world.clock == s.world.clock && t.repaired == s.repaired
    requires forall a, k :: Has(s.world, a, k) ==> Has(t.world, a, k)
    ensures Kept(first, t)
  {
    forall k | Held(first, k) && Fresh(first, k, s.world.clock) ensures Safe(t, k) {
      var a :| Has(s.world, a, k) && (a, k) !in s.repaired;
      assert Has(t.world, a, k);
    }
  }

  /** A step of the job at `a` that changes at most an expired copy there. */
  lemma StillTraced(c: Cluster, first: World, s: State, t: State, a: string)
    requires JobsOk(c, s) && Traced(c, first, s) && MovesOnly(s, t, a) && OthersUndisturbed(c, first, s, t, a)
    requires forall b, k :: Has(t.world, b, k) ==> Has(s.world, b, k) && t.world.stores[b][k] == s.world.stores[b][k]
    requires forall b, k :: Has(s.world, b, k) ==> Has(t.world, b, k)
    requires RepairsStem(first, t) && JobInHand(c, first, t, a)
    ensures Traced(c, first, t)
  {
    CopiesStay(first, s, t);
    KeptStays(first, s, t);
    JobStepTraced(c, first, s, t, a);
  }

  /** A read at `a` deletes at most an expired copy there. */
  lemma ValueUndisturbed(c: Cluster, first: World, s: State, t: State, a: string, k: string)
    requires a in s.world.stores && t.world == ValueRead(s.world, a, k) && t.borrowed == s.borrowed
    ensures OthersUndisturbed(c, first, s, t, a)
    ensures forall b, x :: Has(t.world, b, x) ==> Has(s.world, b, x) && t.world.stores[b][x] == s.world.stores[b][x]
    ensures forall b, x :: Has(s.world, b, x) ==> Has(t.world, b, x)
  {
  }

  lemma SameUndisturbed(c: Cluster, first: World, s: State, t: State, a: string)
    requires t.world == s.world && s.borrowed <= t.borrowed
    ensures OthersUndisturbed(c, first, s, t, a)
  {
  }

  /** The copy just read is in hand. */
  lemma JustRead(c: Cluster, first: World, s: State, t: State, a: string, k: string)
    requires CopiesStem(first, s) && Has(s.world, a, k) && Has(t.world, a, k)
             && t.world.stores[a][k] == s.world.stores[a][k]
    requires t.world.clock == s.world.clock && t.borrowed == s.borrowed
    ensures InHand(c, first, t, a, k, Halfway(s.world.stores[a][k]))
  {
    var copy := s.world.stores[a][k];
    assert CopyStems(first, s, a, k);
    StemsMixed(first, k, copy.value, copy.expiresAt, s.world.clock, k in s.borrowed);
  }

  lemma ValueTraced(c: Cluster, first: World, s: State, a: string, arrived: bool, order: seq<R.Node>)
    requires JobsOk(c, s) && Traced(c, first, s) && Busy(s, a) && s.jobs[a].stage.Asking?
    ensures Traced(c, first, ValueStep(s, a, arrived, order))
  {
    var k, t := AtStake(s, a).key, ValueStep(s, a, arrived, order);
    ValueIsStep(s, a, arrived, order);
    if arrived && k != "" {
      ValueUndisturbed(c, first, s, t, a, k);
      if Has(s.world, a, k) {
        JustRead(c, first, s, t, a, k);
      }
    } else {
      SameUndisturbed(c, first, s, t, a);
    }
    StillTraced(c, first, s, t, a);
  }

  lemma ExpiryStems(first: World, s: State, a: string, k: string, copy: Item)
    requires a in s.world.stores && ExpiryInReach(first, s, a, k, copy)
    requires Stems(first, k, copy.value, copy.expiresAt, s.world.clock, k in s.borrowed)
    ensures Stems(first, k, copy.value, Hop(ExpiryRead(s.world, a, k)), s.world.clock, k in s.borrowed)
  {
    if k in s.borrowed {
      UntiedHop(first, k, ExpiryRead(s.world, a, k));
    } else {
      if !Stored(s.world, a, k) {
        StemsLost(first, k, copy.value, copy.expiresAt, s.world.clock);
      }
      StemsHop(first, k, copy.value, ExpiryRead(s.world, a, k), s.world.clock, false);
    }
  }

  lemma ExpiryTraced(c: Cluster, first: World, s: State, a: string, answered: bool)
    requires JobsOk(c, s) && Traced(c, first, s) && Busy(s, a) && s.jobs[a].stage.Halfway?
    ensures Traced(c, first, ExpiryStep(s, a, answered))
  {
    assert JobInHand(c, first, s, a);
    ExpiryStems(first, s, a, AtStake(s, a).key, s.jobs[a].stage.copy);
    ExpiryIsStep(s, a, answered);
    SameUndisturbed(c, first, s, ExpiryStep(s, a, answered), a);
    StillTraced(c, first, s, ExpiryStep(s, a, answered), a);
  }

  lemma AskTraced(c: Cluster, first: World, s: State, a: string, got: bool, answered: bool)
    requires JobsOk(c, s) && Traced(c, first, s) && Busy(s, a) && s.jobs[a].stage.Missed? && s.jobs[a].stage.left != []
    ensures Traced(c, first, AskStep(s, a, got, answered))
  {
    var t := AskStep(s, a, got, answered);
    if Obtains(s, a, got) {
      var k, b := AtStake(s, a).key, s.jobs[a].stage.left[0].addr;
      var copy := s.world.stores[b][k];
      assert CopyStems(first, s, b, k);
      StemsMixed(first, k, copy.value, copy.expiresAt, s.world.clock, k in s.borrowed);
      UntiedHop(first, k, copy.expiresAt);
    }
    AskIsStep(s, a, got, answered);
    SameUndisturbed(c, first, s, t, a);
    StillTraced(c, first, s, t, a);
  }

  lemma NotFoundTraced(c: Cluster, first: World, s: State, a: string)
    requires JobsOk(c, s) && Traced(c, first, s) && Busy(s, a)
    ensures Traced(c, first, WithJob(s, a, s.jobs[a].Skip(true)))
  {
    StillTraced(c, first, s, WithJob(s, a, s.jobs[a].Skip(true)), a);
  }

  /** A copy from elsewhere is stored at `b`; everything else stays. */
  ghost predicate Puts(w: World, v: World, b: string, k: string, item: Item) {
    && v.clock == w.clock && Stored(v, b, k)
    && v.stores[b][k].value == item.value && v.stores[b][k].expiresAt == item.expiresAt
    && forall a, x :: (a, x) != (b, k) ==> SameStored(w, v, a, x)
  }

  lemma PutStems(first: World, s: State, t: State, b: string, k: string, item: Item)
    requires CopiesStem(first, s) && Puts(s.world, t.world, b, k, item) && t.borrowed == s.borrowed
    requires Stems(first, k, item.value, item.expiresAt, s.world.clock, k in s.borrowed)
    ensures CopiesStem(first, t)
  {
    forall a, x ensures CopyStems(first, t, a, x) {
      assert CopyStems(first, s, a, x);
      assert (a, x) != (b, k) ==> SameStored(s.world, t.world, a, x);
    }
  }

  /** A pushed copy is stored at the key's home, and is alive if the key is fresh. */
  lemma PushedKept(c: Cluster, first: World, s: State, t: State, k: string, item: Item)
    requires Kept(first, s) && RepairsOk(c, s) && t.repaired == s.repaired && Puts(s.world, t.world, c.Home(k), k, item)
    requires Fresh(first, k, s.world.clock) ==> !Expired(item.expiresAt, s.world.clock)
    ensures Kept(first, t)
  {
    forall x | Held(first, x) && Fresh(first, x, s.world.clock) ensures Safe(t, x) {
      if x == k {
        assert Has(t.world, c.Home(k), k) && (c.Home(k), k) !in t.repaired;
      } else {
        var b :| Has(s.world, b, x) && (b, x) !in s.repaired;
        assert SameStored(s.world, t.world, b, x);
      }
    }
  }

  lemma PushUndisturbed(c: Cluster, first: World, s: State, t: State, a: string, k: string, item: Item)
    requires Puts(s.world, t.world, c.Home(k), k, item) && t.borrowed == s.borrowed
    requires Fresh(first, k, s.world.clock) ==> !Expired(item.expiresAt, s.world.clock)
    ensures OthersUndisturbed(c, first, s, t, a)
  {
    forall x | Fresh(first, x, s.world.clock) && Has(s.world, c.Home(x), x) ensures Has(t.world, c.Home(x), x) {
      assert x != k ==> SameStored(s.world, t.world, c.Home(x), x);
    }
  }

  /** Whatever its job does next, an accepted copy stems from an original one and keeps the key. */
  lemma AcceptedTraced(c: Cluster, first: World, s: State, t: State, a: string, k: string, p: Pulled)
    requires CopiesStem(first, s) && Kept(first, s) && RepairsOk(c, s) && c.Home(k) in s.world.stores
    requires t.world == AcceptedAt(s.world, c.Home(k), k, p) && t.borrowed == s.borrowed && t.repaired == s.repaired
    requires Stems(first, k, p.value, Decode(p.ms), s.world.clock, k in s.borrowed)
    ensures CopiesStem(first, t) && Kept(first, t) && OthersUndisturbed(c, first, s, t, a)
    ensures Fresh(first, k, s.world.clock) ==> Has(t.world, c.Home(k), k)
  {
    var item := t.world.stores[c.Home(k)][k];
    if Fresh(first, k, s.world.clock) {
      StemsAlive(first, k, p.value, Decode(p.ms), s.world.clock, k in s.borrowed);
    }
    PutStems(first, s, t, c.Home(k), k, item);
    PushedKept(c, first, s, t, k, item);
    PushUndisturbed(c, first, s, t, a, k, item);
  }

  lemma PushTraced(c: Cluster, first: World, s: State, a: string, outcome: Outcome)
    requires JobsOk(c, s) && RepairsOk(c, s) && Traced(c, first, s) && Busy(s, a) && s.jobs[a].stage.Ready?
    requires AtStake(s, a).newOwner.addr in s.world.stores
    ensures Traced(c, first, PushStep(s, a, outcome))
  {
    var m, t := AtStake(s, a), PushStep(s, a, outcome);
    assert JobInHand(c, first, s, a) && JobOk(c, a, s.jobs[a]);
    PushIsStep(c, s, a, outcome);
    if outcome.Lost? {
      SameUndisturbed(c, first, s, t, a);
      StillTraced(c, first, s, t, a);
    } else {
      AcceptedTraced(c, first, s, t, a, m.key, s.jobs[a].stage.reply);
      JobStepTraced(c, first, s, t, a);
    }
  }

  lemma CompletedStem(first: World, s: State, t: State, a: string, k: string)
    requires CopiesStem(first, s) && a in s.world.stores && t.world == CompletedAt(s.world, a, k)
             && t.borrowed == s.borrowed
    ensures CopiesStem(first, t)
  {
    CopiesStay(first, s, t);
  }

  lemma CompleteUndisturbed(c: Cluster, first: World, s: State, t: State, a: string, k: string)
    requires a in s.world.stores && t.world == CompletedAt(s.world, a, k) && t.borrowed == s.borrowed && c.Home(k) != a
    ensures OthersUndisturbed(c, first, s, t, a)
  {
  }

  /** A key that is deleted at `a` stays safe at its home. */
  lemma CompletedKept(c: Cluster, first: World, s: State, t: State, a: string, k: string)
    requires Kept(first, s) && RepairsOk(c, s) && a in s.world.stores && c.Home(k) != a
    requires t.world == CompletedAt(s.world, a, k) && t.repaired == s.repaired
    requires Fresh(first, k, s.world.clock) ==> Has(s.world, c.Home(k), k)
    ensures Kept(first, t)
  {
    forall x | Held(first, x) && Fresh(first, x, s.world.clock) ensures Safe(t, x) {
      if x == k {
        assert Has(t.world, c.Home(k), k) && (c.Home(k), k) !in t.repaired;
      } else {
        var b :| Has(s.world, b, x) && (b, x) !in s.repaired;
        assert Has(t.world, b, x);
      }
    }
  }

  lemma SignalTraced(c: Cluster, first: World, s: State, a: string, outcome: Outcome)
    requires JobsOk(c, s) && RepairsOk(c, s) && Traced(c, first, s) && Busy(s, a) && s.jobs[a].stage.Pushed?
    ensures Traced(c, first, SignalStep(s, a, outcome))
  {
    var k, t := AtStake(s, a).key, SignalStep(s, a, outcome);
    assert JobInHand(c, first, s, a) && JobOk(c, a, s.jobs[a]);
    assert c.Home(k) != a;
    SignalIsStep(s, a, outcome);
    if outcome.Lost? {
      SameUndisturbed(c, first, s, t, a);
      StillTraced(c, first, s, t, a);
    } else {
      CompletedStem(first, s, t, a, k);
      CompletedKept(c, first, s, t, a, k);
      CompleteUndisturbed(c, first, s, t, a, k);
      JobStepTraced(c, first, s, t, a);
    }
  }

  /** A write-back goes to a node that has lost the key, or has been written back to before. */
  lemma RepairedKept(c: Cluster, first: World, s: State, r: Repair)
    requires RepairsOk(c, s) && Promised(c, s) && Kept(first, s) && r in s.repairs && r.at in s.world.stores
    ensures Kept(first, RepairStep(s, r))
  {
    var t := RepairStep(s, r);
    forall x | Held(first, x) && Fresh(first, x, s.world.clock) ensures Safe(t, x) {
      var b :| Has(s.world, b, x) && (b, x) !in s.repaired;
      assert !Left(c, s, r.at, r.key);
      assert Has(t.world, b, x) && (b, x) !in t.repaired;
    }
  }

  lemma RepairedInHand(c: Cluster, first: World, s: State, r: Repair, a: string, k: string, stage: Stage)
    requires RepairsOk(c, s) && RepairsStem(first, s) && r in s.repairs && r.at in s.world.stores
    requires InHand(c, first, s, a, k, stage)
    ensures InHand(c, first, RepairStep(s, r), a, k, stage)
  {
  }

  lemma RepairTraced(c: Cluster, first: World, s: State, r: Repair)
    requires RepairsOk(c, s) && Promised(c, s) && Traced(c, first, s) && r in s.repairs && r.at in s.world.stores
    ensures Traced(c, first, RepairStep(s, r))
  {
    var t := RepairStep(s, r);
    PutStems(first, s, t, r.at, r.key, t.world.stores[r.at][r.key]);
    RepairedKept(c, first, s, r);
    forall a <- t.jobs ensures JobInHand(c, first, t, a) {
      var j := s.jobs[a];
      assert JobInHand(c, first, s, a);
      if j.next < |j.plan| {
        RepairedInHand(c, first, s, r, a, j.plan[j.next].key, j.stage);
      }
    }
  }

  /** Starting and ending jobs changes no copy and no other job. */
  lemma TurnTraced(c: Cluster, first: World, s: State, action: Action)
    requires Enabled(c, s, action) && (action.List? || action.Start? || action.Refuse? || action.End?)
    requires Traced(c, first, s)
    ensures Traced(c, first, Next(c, s, action))
  {
    var t := Next(c, s, action);
    CopiesStay(first, s, t);
    KeptStays(first, s, t);
    forall a <- t.jobs ensures JobInHand(c, first, t, a) {
      if a in s.jobs {
        SameInHand(c, first, s, t, a);
      }
    }
  }

  lemma SameInHand(c: Cluster, first: World, s: State, t: State, a: string)
    requires a in s.jobs && a in t.jobs && t.jobs[a] == s.jobs[a] && t.world == s.world && t.borrowed == s.borrowed
    requires JobInHand(c, first, s, a)
    ensures JobInHand(c, first, t, a)
  {
  }

  lemma TracedStep(c: Cluster, first: World, s: State, action: Action)
    requires Enabled(c, s, action) && JobsOk(c, s) && RepairsOk(c, s) && Promised(c, s) && Traced(c, first, s)
    ensures Traced(c, first, Next(c, s, action))
  {
    match action
    case Elapse(later, swept) => ElapseTraced(c, first, s, later, swept);
    case List(_, _) => TurnTraced(c, first, s, action);
    case Start(_) => TurnTraced(c, first, s, action);
    case Refuse(_) => TurnTraced(c, first, s, action);
    case ReadValue(a, arrived, order) => ValueTraced(c, first, s, a, arrived, order);
    case ReadExpiry(a, answered) => ExpiryTraced(c, first, s, a, answered);
    case AskReplica(a, got, answered) => AskTraced(c, first, s, a, got, answered);
    case NotFound(a) => NotFoundTraced(c, first, s, a);
    case WriteBack(repair) => RepairTraced(c, first, s, repair);
    case Push(a, outcome) => PushTraced(c, first, s, a, outcome);
    case Signal(a, outcome) => SignalTraced(c, first, s, a, outcome);
    case End(_) => TurnTraced(c, first, s, action);
  }
}
