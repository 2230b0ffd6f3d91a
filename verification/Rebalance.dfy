/**
  Pull-before-drop migration over lossy calls, as run by a node whose keys have moved. Every state
  the stores go through is recorded, so that what holds "at all times" can be said of each.
 */
module Rebalance {
  import opened Lists
  import opened Expiry
  import opened StoreSpec
  import opened Topology
  import opened RebalanceSpec
  import Ring
  import R = RingSpec

  /** The servers of the cluster: their rebalance endpoints behind an unreliable network. */
  class Servers {
    /** Every call arrives and is answered. */
    const answering: bool
    /** The addresses of each key's replicas. */
    const replicas: string -> seq<string>
    var world: World
    ghost var history: seq<World>
    /** Write-backs left to goroutines, which are not run here. */
    var repairs: seq<Repair>

    constructor (answering: bool, replicas: string -> seq<string>, world: World)
      ensures Recorded() && this.answering == answering && this.replicas == replicas
      ensures this.world == world && history == [world] && repairs == []
    {
      this.answering, this.replicas, this.world, history, repairs := answering, replicas, world, [world], [];
    }

    ghost predicate Recorded()
      reads `world, `history
    {
      history != [] && history[|history| - 1] == world
    }

    /** Time passes between any two steps, and nodes sweep. */
    method Elapse()
      requires Recorded()
      modifies `world, `history
      ensures Recorded() && old(history) < history && Follows(old(world), history, |old(history)|, {})
    {
      var later: int := *;
      var swept: set<string> := *;
      if later < world.clock {
        later := world.clock;
      }
      ElapsedKeeps(world, later, swept);
      ElapsedKeys(world, later, swept);
      world := Elapsed(world, later, swept);
      history := history + [world];
    }

    method Transport() returns (outcome: Outcome)
      ensures answering ==> outcome.Replied?
    {
      outcome := *;
      if answering {
        outcome := Replied;
      }
    }

    /** Replicas seen alive first; the views are arbitrary. */
    method AttemptOrder(key: string) returns (order: seq<string>)
      ensures multiset(order) == multiset(replicas(key))
    {
      var alive, dead := [], [];
      for i := 0 to |replicas(key)|
        invariant multiset(alive) + multiset(dead) == multiset(replicas(key)[..i])
      {
        assert replicas(key)[..i + 1] == replicas(key)[..i] + [replicas(key)[i]];
        var up: bool := *;
        if up {
          alive := alive + [replicas(key)[i]];
        } else {
          dead := dead + [replicas(key)[i]];
        }
      }
      assert replicas(key)[..|replicas(key)|] == replicas(key);
      order := alive + dead;
    }

    /** The item is a copy that one of the other replicas holds unexpired in `w`, as transferred. */
    ghost predicate SentByReplica(w: World, a: string, key: string, item: Item) {
      exists r <- replicas(key) :: r != a && Has(w, r, key) && item == Relayed(w.stores[r][key])
    }

    /** No other node among `ids` holds the key. */
    ghost predicate HeldByNone(w: World, ids: seq<string>, a: string, key: string) {
      forall r <- ids :: r != a ==> !Has(w, r, key)
    }

    lemma StillByNone(w: World, v: World, ids: seq<string>, a: string, key: string)
      requires After(w, v, {}) && HeldByNone(w, ids, a, key)
      ensures HeldByNone(v, ids, a, key)
    {
      forall r <- ids | r != a ensures !Has(v, r, key) {
        StaysAbsent(w, v, r, key);
      }
    }

    /** One replica is asked, some time later. */
    method AskReplica(r: string, key: string) returns (found: Option<Item>)
      requires Recorded()
      modifies `world, `history
      ensures Recorded() && old(history) < history && Follows(old(world), history, |old(history)|, {})
      ensures After(old(world), world, {})
      ensures found.Some? ==> Has(world, r, key) && found.value == Relayed(world.stores[r][key])
      ensures answering && found.None? ==> !Has(world, r, key)
    {
      ghost var h0 := history;
      Elapse();
      assert After(old(world), history[|history| - 1], {});
      var outcome := Transport();
      if outcome.Replied? && r in world.stores {
        found := Fetch(world.stores[r], key, world.clock);
        if found.Some? {
          found := Some(Relayed(found.value));
        }
      } else {
        found := None;
      }
    }

    /** `readFromReplica`: the first replica that answers with an unexpired copy. */
    method ReadFromReplica(a: string, key: string) returns (found: Option<Item>)
      requires Recorded()
      modifies `world, `history
      ensures Recorded() && old(history) <= history && Follows(old(world), history, |old(history)|, {})
      ensures After(old(world), world, {})
      ensures found.Some? ==> SentByReplica(world, a, key, found.value)
      ensures answering && found.None? ==> HeldByNone(world, replicas(key), a, key)
    {
      ghost var w0, h0 := world, history;
      AfterSelf(w0);
      found := None;
      var order := AttemptOrder(key);
      for i := 0 to |order|
        invariant Recorded() && h0 <= history && Follows(w0, history, |h0|, {}) && After(w0, world, {})
        invariant found.None? && (answering ==> HeldByNone(world, order[..i], a, key))
      {
        assert order[i] in multiset(order);
        assert order[..i + 1] == order[..i] + [order[i]];
        if order[i] != a {
          ghost var w1, h1 := world, history;
          found := AskReplica(order[i], key);
          FollowsThen(w0, w1, h1, history, |h0|, {});
          AfterThen(w0, w1, world, {});
          if found.Some? {
            return;
          }
          if answering {
            StillByNone(w1, world, order[..i], a, key);
          }
        }
      }
      forall r <- replicas(key) ensures r in order[..|order|] {
        assert r in multiset(replicas(key));
      }
    }

    /**
      A pull of a key the node lacks: what a replica sends is passed on without its expiry, and noted for a
      write-back.
     */
    method HandleMiss(a: string, key: string) returns (reply: Option<Pulled>)
      requires Recorded()
      modifies this
      ensures Recorded() && old(history) <= history && Follows(old(world), history, |old(history)|, {})
      ensures After(old(world), world, {})
      ensures reply.Some? ==> Borrowed(world, a, key, reply.value, old(repairs), repairs)
      ensures reply.None? ==> repairs == old(repairs)
      ensures answering && reply.None? ==> HeldByNone(world, replicas(key), a, key)
    {
      var found := ReadFromReplica(a, key);
      if found.None? {
        return None;
      }
      BorrowedFrom(world, a, key, found.value, repairs);
      repairs := repairs + [Repair(a, key, found.value.value, found.value.expiresAt)];
      return Some(Pulled(found.value.value, 0));
    }

    lemma BorrowedFrom(w: World, a: string, key: string, item: Item, before: seq<Repair>)
      requires SentByReplica(w, a, key, item)
      ensures Borrowed(w, a, key, Pulled(item.value, 0), before, before + [Repair(a, key, item.value, item.expiresAt)])
    {
    }

    /** A replica's value without an expiry; value and expiry are noted for the write-back. */
    ghost predicate Borrowed(w: World, a: string, key: string, p: Pulled, before: seq<Repair>, after: seq<Repair>) {
      && p.ms == 0 && |after| == |before| + 1
      && exists item :: SentByReplica(w, a, key, item) && p.value == item.value
                        && after == before + [Repair(a, key, item.value, item.expiresAt)]
    }

    /** The copy the node held when asked; the expiry is that of the copy unless it is gone by the second section. */
    ghost predicate SentOwn(w: World, v: World, a: string, key: string, p: Pulled) {
      && Has(w, a, key) && a in v.stores && p.value == w.stores[a][key].value
      && p.ms == (if key in v.stores[a] then w.stores[a][key].expiresAt else NEVER) / MILLI
    }

    /**
      `handleRebalancePull`: value and expiry are read in two sections; a node that lacks the key asks its
      replicas.
     */
    method HandlePull(a: string, key: string) returns (reply: Option<Pulled>)
      requires Recorded() && a in world.stores
      modifies this
      ensures Recorded() && old(history) < history && Follows(old(world), history, |old(history)|, {})
      ensures After(old(world), world, {})
      ensures Has(old(world), a, key) ==>
                reply.Some? && SentOwn(old(world), world, a, key, reply.value) && repairs == old(repairs)
      ensures !Has(old(world), a, key) ==>
                if reply.Some? then Borrowed(world, a, key, reply.value, old(repairs), repairs)
                  else repairs == old(repairs)
      ensures answering && reply.None? ==> HeldByNone(world, replicas(key), a, key)
      ensures reply.Some? ==> Answers(old(world), a, key, reply.value, world.clock)
    {
      ghost var w0, h0 := world, history;
      var copy := Fetch(world.stores[a], key, world.clock);
      ValueReadKeeps(world, a, key);
      world := ValueRead(world, a, key);
      history := history + [world];
      ghost var w1, h1 := world, history;
      assert After(w0, w1, {});
      if copy.None? {
        reply := HandleMiss(a, key);
        FollowsThen(w0, w1, h1, history, |h0|, {});
        AfterThen(w0, w1, world, {});
        if reply.Some? {
          MissedAnswers(w0, a, key, reply.value, world.clock);
        }
        return;
      }
      Elapse();
      FollowsThen(w0, w1, h1, history, |h0|, {});
      assert After(w0, world, {});
      CopyStays(w0, world, a, key);
      reply := Some(Pulled(copy.value.value, UnixMilli(ExpiryRead(world, a, key))));
      forall item | At(w0, a, key, item) ensures Carries(reply.value, item, world.clock) {
        PulledCarries(w0, world, a, key, item, world.clock);
      }
    }

    /** A pull that has arrived, and the time its reply takes. */
    method ServePull(a: string, key: string) returns (reply: Option<Pulled>)
      requires Recorded() && a in world.stores
      modifies this
      ensures Recorded() && old(history) < history && Follows(old(world), history, |old(history)|, {})
      ensures reply.Some? ==> Answers(old(world), a, key, reply.value, world.clock)
      ensures Has(old(world), a, key) ==>
                reply.Some? && reply.value.value == old(world).stores[a][key].value && repairs == old(repairs)
      ensures !Has(old(world), a, key) && reply.Some? ==> reply.value.ms == 0 && Noted(old(repairs), repairs, a, key)
      ensures reply.None? ==> repairs == old(repairs) && !Has(world, a, key)
    {
      ghost var w1, h1 := world, history;
      reply := HandlePull(a, key);
      ghost var w2, h2 := world, history;
      Elapse();
      FollowsThen(w1, w2, h2, history, |h1|, {});
      assert After(w2, world, {});
      AfterThen(w1, w2, world, {});
      if reply.None? {
        StaysAbsent(w1, world, a, key);
      } else {
        AnswersLater(w1, a, key, reply.value, w2.clock, world.clock);
      }
    }

    /** The old owner is asked for the key's value; anything but a 200 reads as `None`. */
    method Pull(a: string, key: string) returns (reply: Option<Pulled>)
      requires Recorded()
      modifies this
      ensures Recorded() && old(history) < history && Follows(old(world), history, |old(history)|, {})
      ensures reply.Some? ==> Answers(old(world), a, key, reply.value, world.clock)
      ensures reply.Some? ==>
                if repairs != old(repairs) then reply.value.ms == 0
                else Has(old(world), a, key) && reply.value.value == old(world).stores[a][key].value
      ensures repairs == old(repairs) || Noted(old(repairs), repairs, a, key)
      ensures answering && key != "" && a in old(world).stores && reply.None? ==> !Has(world, a, key)
    {
      ghost var w0, h0 := world, history;
      Elapse();
      var outcome := Transport();
      if outcome.Lost? || key == "" || a !in world.stores {
        return None;
      }
      ghost var w1, h1 := world, history;
      assert After(w0, w1, {});
      reply := ServePull(a, key);
      FollowsThen(w0, w1, h1, history, |h0|, {});
      if outcome.Unanswered? {
        return None;
      }
      if reply.Some? {
        AnswersEarlier(w0, w1, a, key, reply.value, world.clock);
      }
    }

    /** Until the expiry that was sent, the node holds the value that was sent, under this expiry. */
    ghost predicate TakenOver(p: Pulled, w: World, a: string, key: string)
      requires a in w.stores
    {
      var expiresAt := if p.ms > 0 then p.ms * MILLI else NEVER;
      expiresAt == NEVER || w.clock < expiresAt ==>
        key in w.stores[a] && w.stores[a][key].value == p.value && w.stores[a][key].expiresAt == expiresAt
    }

    lemma StoredOver(w1: World, w2: World, w: World, a: string, key: string, p: Pulled)
      requires a in w1.stores && w2 == AcceptedAt(w1, a, key, p) && After(w2, w, {})
      ensures a in w.stores && TakenOver(p, w, a, key)
    {
      var item := w2.stores[a][key];
      assert At(w2, a, key, item);
      assert At(w, a, key, item);
      if p.ms > 0 {
        assert p.ms * MILLI / MILLI == p.ms;
      }
    }

    /** The new owner is sent the value. */
    method Accept(a: string, key: string, p: Pulled) returns (ok: bool)
      requires Recorded()
      modifies `world, `history
      ensures Recorded() && old(history) < history && Follows(old(world), history, |old(history)|, {(a, key)})
      ensures ok ==> Arrived(p, old(world).clock, world, a, key)
      ensures ok ==> a in world.stores && TakenOver(p, world, a, key)
      ensures Has(world, a, key) ==> world.stores[a][key].value == p.value
                                     || (Has(old(world), a, key) && world.stores[a][key] == old(world).stores[a][key])
      ensures answering && key != "" && a in old(world).stores ==> ok
    {
      ghost var w0, h0 := world, history;
      Elapse();
      var outcome := Transport();
      if outcome.Lost? || key == "" || a !in world.stores {
        assert After(w0, world, {});
        KeepsMore(w0, history, |h0|, {(a, key)});
        return false;
      }
      ghost var w1, h1 := world, history;
      KeepsMore(w0, h1, |h0|, {(a, key)});
      assert After(w0, w1, {(a, key)});
      AcceptKeeps(world, a, key, p);
      world := AcceptedAt(world, a, key, p);
      history := history + [world];
      FollowsThen(w0, w1, h1, history, |h0|, {(a, key)});
      ghost var w2, h2 := world, history;
      assert After(w0, w2, {(a, key)});
      Elapse();
      assert After(w2, world, {});
      StoredOver(w1, w2, world, a, key, p);
      KeepsMore(w2, history, |h2|, {(a, key)});
      FollowsThen(w0, w2, h2, history, |h0|, {(a, key)});
      ok := outcome.Replied?;
      forall item | ok && Carries(p, item, w0.clock) ensures At(world, a, key, item) {
        CarriedIsAt(w1, a, key, item, p);
      }
    }

    /** The old owner is told to delete the key; the caller ignores whether that succeeded. */
    method Complete(a: string, key: string) returns (ok: bool)
      requires Recorded()
      modifies `world, `history
      ensures Recorded() && old(history) < history && Follows(old(world), history, |old(history)|, {(a, key)})
      ensures ok ==> !Has(world, a, key)
      ensures answering && key != "" && a in old(world).stores ==> ok
    {
      ghost var w0, h0 := world, history;
      Elapse();
      KeepsMore(w0, history, |h0|, {(a, key)});
      var outcome := Transport();
      if outcome.Lost? || key == "" || a !in world.stores {
        return false;
      }
      ghost var w1, h1 := world, history;
      assert After(w0, w1, {(a, key)});
      CompleteKeeps(world, a, key);
      world := CompletedAt(world, a, key);
      history := history + [world];
      FollowsThen(w0, w1, h1, history, |h0|, {(a, key)});
      ok := outcome.Replied?;
    }
  }

  datatype Result = Result(totalKeys: nat, movedKeys: nat, failedKeys: nat, migrations: seq<Migration>)

  /** Both ends run a server, and the key has a name. */
  predicate Reachable(w: World, m: Migration, oldAddr: string) {
    oldAddr in w.stores && m.newOwner.addr in w.stores && m.key != ""
  }

  /** All servers involved run, and every planned key has a name. */
  ghost predicate AllReachable(w: World, plan: seq<Migration>, oldAddr: string) {
    oldAddr in w.stores && forall i :: 0 <= i < |plan| ==> Reachable(w, plan[i], oldAddr)
  }

  /** Totals and statuses of a finished run over `plan`. */
  ghost predicate Tallied(result: Result, plan: seq<Migration>, listed: nat) {
    && result.totalKeys == listed && SameMoves(plan, result.migrations)
    && (forall i :: 0 <= i < |plan| ==> result.migrations[i].status.Complete? || result.migrations[i].status.Failed?)
    && result.movedKeys == (|set i | 0 <= i < |plan| && result.migrations[i].status == Status.Complete|)
    && result.failedKeys == (|set i | 0 <= i < |plan| && result.migrations[i].status == Failed|)
    && result.movedKeys + result.failedKeys == |plan|
  }

  /** What the execution loop starts from: the world and how many have been recorded, the plan and whose it is. */
  datatype Assignment = Assignment(start: World, from: nat, oldAddr: string, plan: seq<Migration>, answering: bool)

  /** What it has done: the first `done` migrations, and how they ended. */
  datatype Tally = Tally(ms: seq<Migration>, done: nat, moved: nat, failed: nat)
  {
    /** One migration more. */
    function Next(ok: bool): Tally
      requires done < |ms|
    {
      Tally(ms[done := ms[done].(status := if ok then Status.Complete else Failed)], done + 1,
            moved + if ok then 1 else 0, failed + if ok then 0 else 1)
    }
  }

  /** The statuses and counters of a loop in progress. */
  ghost predicate Counts(plan: seq<Migration>, t: Tally) {
    && t.done <= |plan| && SameMoves(plan, t.ms) && (forall j :: t.done <= j < |plan| ==> t.ms[j] == plan[j])
    && (forall j :: 0 <= j < t.done ==> t.ms[j].status.Complete? || t.ms[j].status.Failed?)
    && t.moved == Count(t.ms, t.done, Status.Complete) && t.failed == Count(t.ms, t.done, Failed)
    && t.moved + t.failed == t.done
  }

  ghost predicate Progress(a: Assignment, w: World, h: seq<World>, t: Tally) {
    && Counts(a.plan, t) && w.stores.Keys == a.start.stores.Keys && OnlyMoved(a.start, w, a.oldAddr, t.ms)
    && (DistinctMoves(a.plan, a.oldAddr) ==>
          AllSecure(a.start, h, a.from, a.oldAddr, t.ms) && Whereabouts(a.start, w, a.oldAddr, t.ms))
    && (a.answering && AllReachable(a.start, a.plan, a.oldAddr) ==> GoneUpTo(w, a.oldAddr, t.ms, t.done))
  }

  /** Migration `m` has been carried out between `w` and `v`. */
  ghost predicate CarriedOut(a: Assignment, w: World, v: World, h: seq<World>, h': seq<World>, m: Migration, ok: bool) {
    && h < h' && h'[|h'| - 1] == v
    && Underway(w, v, h', |h|, a.oldAddr, m.newOwner.addr, m.key, if ok then m.newOwner.addr else a.oldAddr)
    && (a.answering && Reachable(w, m, a.oldAddr) ==> !Has(v, a.oldAddr, m.key))
  }

  lemma CountsStep(plan: seq<Migration>, t: Tally, ok: bool)
    requires Counts(plan, t) && t.done < |plan|
    ensures Counts(plan, t.Next(ok))
  {
    CountStep(t.ms, t.Next(ok).ms, t.done, Status.Complete);
    CountStep(t.ms, t.Next(ok).ms, t.done, Failed);
  }

  lemma ProgressStep(a: Assignment, w: World, v: World, h: seq<World>, h': seq<World>, t: Tally, ok: bool)
    requires Progress(a, w, h, t) && t.done < |a.plan| && a.plan[t.done].status.Pending?
    requires CarriedOut(a, w, v, h, h', t.ms[t.done], ok)
    ensures Progress(a, v, h', t.Next(ok))
  {
    var m, t' := a.plan[t.done], t.Next(ok);
    assert t.ms[t.done] == m && Ends(m, a.oldAddr) == {(a.oldAddr, m.key), (m.newOwner.addr, m.key)};
    CountsStep(a.plan, t, ok);
    if DistinctMoves(a.plan, a.oldAddr) {
      MovesAlike(a.plan, t.ms, a.oldAddr);
      MigrationStep(a.start, w, h, h', a.from, a.oldAddr, t.ms, t'.ms, t.done);
    }
    MovedStep(a.start, w, v, a.oldAddr, t.ms, t'.ms, t.done);
    if a.answering && AllReachable(a.start, a.plan, a.oldAddr) {
      assert Reachable(a.start, m, a.oldAddr);
      GoneStep(w, v, h', |h|, a.oldAddr, t.ms, t'.ms, t.done, if ok then m.newOwner.addr else a.oldAddr);
    }
  }

  lemma ProgressStarts(a: Assignment, h: seq<World>)
    requires |h| == a.from && forall i :: 0 <= i < |a.plan| ==> a.plan[i].status.Pending?
    ensures Progress(a, a.start, h, Tally(a.plan, 0, 0, 0))
  {
  }

  /** What the finished loop says about the whole run. */
  lemma ProgressEnds(a: Assignment, w: World, h: seq<World>, t: Tally, listed: nat)
    requires Progress(a, w, h, t) && t.done == |a.plan|
    ensures Tallied(Result(listed, t.moved, t.failed, t.ms), a.plan, listed) && OnlyMoved(a.start, w, a.oldAddr, t.ms)
    ensures DistinctMoves(a.plan, a.oldAddr) ==>
              AllSecure(a.start, h, a.from, a.oldAddr, t.ms) && Whereabouts(a.start, w, a.oldAddr, t.ms)
    ensures a.answering && AllReachable(a.start, a.plan, a.oldAddr) ==> GoneUpTo(w, a.oldAddr, t.ms, |t.ms|)
  {
    assert t.ms[..|a.plan|] == t.ms;
  }

  /** All new write-backs are due at `a`, for planned keys. */
  ghost predicate Mending(before: seq<Repair>, after: seq<Repair>, a: string, plan: seq<Migration>) {
    before <= after && forall i :: |before| <= i < |after| ==> after[i].at == a && Planned(plan, after[i].key)
  }

  lemma MendingStep(r0: seq<Repair>, r1: seq<Repair>, r2: seq<Repair>, a: string, plan: seq<Migration>, i: nat)
    requires Mending(r0, r1, a, plan) && i < |plan| && (r2 == r1 || Noted(r1, r2, a, plan[i].key))
    ensures Mending(r0, r2, a, plan)
  {
    assert Planned(plan, plan[i].key);
  }

  /** One more write-back of the key at `a` is due. */
  ghost predicate Noted(before: seq<Repair>, after: seq<Repair>, a: string, key: string) {
    |after| == |before| + 1 && before <= after && after[|before|].at == a && after[|before|].key == key
  }

  lemma MovesAlike(plan: seq<Migration>, ms: seq<Migration>, oldAddr: string)
    requires SameMoves(plan, ms) && DistinctMoves(plan, oldAddr)
    ensures DistinctMoves(ms, oldAddr)
  {
  }

  /** An accepted reply puts the key at the new owner. */
  lemma AcceptedIsThere(w0: World, w1: World, w2: World, h: seq<World>, from: nat, oldAddr: string, target: string,
                        key: string, p: Pulled)
    requires Underway(w0, w2, h, from, oldAddr, target, key, oldAddr)
    requires Answers(w0, oldAddr, key, p, w1.clock) && Arrived(p, w1.clock, w2, target, key)
    ensures Underway(w0, w2, h, from, oldAddr, target, key, target)
  {
  }

  /** The new owner of one of the migrations' keys, or the old one. */
  ghost predicate Involved(ms: seq<Migration>, oldAddr: string, a: string, k: string) {
    exists i :: 0 <= i < |ms| && (a, k) in Ends(ms[i], oldAddr)
  }

  /** No copy has appeared or changed except where a migration put it. */
  ghost predicate OnlyMoved(w0: World, w: World, oldAddr: string, ms: seq<Migration>) {
    forall a, k :: Stored(w, a, k) && !Involved(ms, oldAddr, a, k) ==>
      Stored(w0, a, k) && w.stores[a][k] == w0.stores[a][k]
  }

  lemma MovedStep(w0: World, w: World, v: World, oldAddr: string, ms: seq<Migration>, ms': seq<Migration>, i: nat)
    requires i < |ms| && SameMoves(ms, ms') && After(w, v, Ends(ms[i], oldAddr)) && OnlyMoved(w0, w, oldAddr, ms)
    ensures OnlyMoved(w0, v, oldAddr, ms')
  {
    forall a, k ensures Involved(ms, oldAddr, a, k) ==> Involved(ms', oldAddr, a, k) {
      if Involved(ms, oldAddr, a, k) {
        var x :| 0 <= x < |ms| && (a, k) in Ends(ms[x], oldAddr);
        assert (a, k) in Ends(ms'[x], oldAddr);
      }
    }
  }

  /** The old owner no longer serves the first `i` keys. */
  ghost predicate GoneUpTo(w: World, oldAddr: string, ms: seq<Migration>, i: nat) {
    i <= |ms| && forall j :: 0 <= j < i ==> !Has(w, oldAddr, ms[j].key)
  }

  lemma GoneStep(w: World, v: World, h: seq<World>, from: nat, oldAddr: string, ms: seq<Migration>, ms': seq<Migration>,
                 i: nat, holder: string)
    requires i < |ms| && SameMoves(ms, ms') && Underway(w, v, h, from, oldAddr, ms[i].newOwner.addr, ms[i].key, holder)
    requires GoneUpTo(w, oldAddr, ms, i) && !Has(v, oldAddr, ms[i].key)
    ensures GoneUpTo(v, oldAddr, ms', i + 1)
  {
    forall j | 0 <= j <= i ensures !Has(v, oldAddr, ms'[j].key) {
      if ms[j].key != ms[i].key {
        assert !Has(w, oldAddr, ms[j].key);
        assert (oldAddr, ms[j].key) !in Ends(ms[i], oldAddr);
      }
    }
  }

  /**
    The plan read off the points of the ring: a listed key is planned exactly if the next point around from its hash
    belongs to another node, and then that node is where it goes.
   */
  ghost predicate PlannedByRing(r: R.RingState, hash: string -> R.Point, local: string, keys: seq<string>,
                                plan: seq<Migration>) {
    && (r.owner == map[] ==> plan == [])
    && (forall k, p | k in keys :: KeyByPoint(r, hash, local, plan, k, p))
    && (forall i, p | 0 <= i < |plan| :: MoveByPoint(r, hash, keys, plan[i], p))
  }

  /** If `p` is the point for `k`, the key is planned exactly if `p` belongs to another node. */
  ghost predicate KeyByPoint(r: R.RingState, hash: string -> R.Point, local: string, plan: seq<Migration>, k: string,
                             p: R.Point) {
    Ring.NextAround(r.owner.Keys, hash(k), p) ==> (Planned(plan, k) <==> r.owner[p] != local)
  }

  /** If `p` is the point for the migration's key, it goes to the node at `p`. */
  ghost predicate MoveByPoint(r: R.RingState, hash: string -> R.Point, keys: seq<string>, m: Migration, p: R.Point) {
    && m.key in keys
    && (Ring.NextAround(r.owner.Keys, hash(m.key), p) ==> r.owner[p] in r.nodes && m.newOwner == r.nodes[r.owner[p]])
  }

  lemma PlanIsByRing(r: R.RingState, hash: string -> R.Point, local: string, keys: seq<string>)
    requires r.WellFormed()
    ensures PlannedByRing(r, hash, local, keys, Plan(OwnerOf(r, hash), local, keys))
  {
    var plan := Plan(OwnerOf(r, hash), local, keys);
    forall k, p | k in keys ensures KeyByPoint(r, hash, local, plan, k, p) {
      PlannedByPoint(r, hash, local, keys, k, p);
    }
    forall i, p | 0 <= i < |plan| ensures MoveByPoint(r, hash, keys, plan[i], p) {
      ListedByPoint(r, hash, local, keys, i, p);
    }
    if r.owner == map[] {
      NothingByPoint(r, hash, local, keys);
    }
  }

  lemma PlannedByPoint(r: R.RingState, hash: string -> R.Point, local: string, keys: seq<string>, k: string,
                       p: R.Point)
    requires r.WellFormed() && k in keys
    ensures KeyByPoint(r, hash, local, Plan(OwnerOf(r, hash), local, keys), k, p)
  {
    if Ring.NextAround(r.owner.Keys, hash(k), p) {
      OwnedNext(r, hash, k, p);
    }
    PlannedIff(OwnerOf(r, hash), local, keys, k);
  }

  lemma ListedByPoint(r: R.RingState, hash: string -> R.Point, local: string, keys: seq<string>, i: nat, p: R.Point)
    requires r.WellFormed() && i < |Plan(OwnerOf(r, hash), local, keys)|
    ensures MoveByPoint(r, hash, keys, Plan(OwnerOf(r, hash), local, keys)[i], p)
  {
    var m := Plan(OwnerOf(r, hash), local, keys)[i];
    if Ring.NextAround(r.owner.Keys, hash(m.key), p) {
      OwnedNext(r, hash, m.key, p);
    }
    PlanListed(OwnerOf(r, hash), local, keys, i);
  }

  lemma NothingByPoint(r: R.RingState, hash: string -> R.Point, local: string, keys: seq<string>)
    requires r.WellFormed() && r.owner == map[]
    ensures Plan(OwnerOf(r, hash), local, keys) == []
  {
    var plan := Plan(OwnerOf(r, hash), local, keys);
    if plan != [] {
      PlanListed(OwnerOf(r, hash), local, keys, 0);
      OwnerId(r, hash(plan[0].key));
      R.LookupNoneIff(r, hash(plan[0].key));
    }
  }

  lemma PlannedIff(owner: Owner, local: string, keys: seq<string>, k: string)
    requires k in keys
    ensures Planned(Plan(owner, local, keys), k) <==> owner(k).Some? && owner(k).value.id != local
  {
    PlanMembers(owner, local, keys);
    if i :| 0 <= i < |Plan(owner, local, keys)| && Plan(owner, local, keys)[i].key == k {
      PlanListed(owner, local, keys, i);
    }
  }

  ghost predicate OwnedBy(r: R.RingState, hash: string -> R.Point, k: string, p: R.Point) {
    && p in r.owner && r.owner[p] in r.nodes && r.nodes[r.owner[p]].id == r.owner[p]
    && OwnerOf(r, hash)(k) == Some(r.nodes[r.owner[p]])
  }

  lemma OwnedNext(r: R.RingState, hash: string -> R.Point, k: string, p: R.Point)
    requires r.WellFormed() && Ring.NextAround(r.owner.Keys, hash(k), p)
    ensures OwnedBy(r, hash, k, p)
  {
    Ring.NextIsNearest(r.owner.Keys, hash(k), p);
    R.LookupIsNearest(r, hash(k), p);
  }

  class Rebalancer {
    const ring: Ring.Ring
    const servers: Servers
    var inProgress: bool
    var lastResult: Option<Result>
    /** The migrations of the current or last run, whose statuses are updated in place. */
    var migrations: array<Migration>

    constructor (ring: Ring.Ring, servers: Servers)
      ensures this.ring == ring && this.servers == servers && !inProgress && lastResult == None
              && migrations.Length == 0
    {
      this.ring, this.servers, inProgress, lastResult := ring, servers, false, None;
      migrations := new Migration[0](_ => Migration("", R.Node("", ""), Pending));
    }

    ghost function CurrentOwner(): Owner
      reads ring
    {
      OwnerOf(ring.State(), ring.hash)
    }

    /** `Lookup` with its two results as one. */
    method LookupOwner(key: string) returns (found: Option<R.Node>)
      requires ring.Valid()
      ensures found == OwnerAt(ring.State(), ring.hash(key))
    {
      var owner, ok := ring.Lookup(key);
      OwnerId(ring.State(), ring.hash(key));
      found := if ok then Some(owner) else None;
    }

    /** The planning loop, shared with `Rebalance`. */
    method ComputeKeyMovements(local: string, localKeys: seq<string>) returns (plan: seq<Migration>)
      requires ring.Valid()
      ensures plan == Plan(CurrentOwner(), local, localKeys)
    {
      plan := [];
      ghost var current := CurrentOwner();
      for i := 0 to |localKeys|
        invariant plan == Plan(current, local, localKeys[..i])
      {
        var owner := LookupOwner(localKeys[i]);
        PlanSnoc(current, local, localKeys[..i], localKeys[i]);
        assert localKeys[..i + 1] == localKeys[..i] + [localKeys[i]];
        assert current(localKeys[i]) == owner;
        if owner.Some? && owner.value.id != local {
          plan := plan + [Migration(localKeys[i], owner.value, Pending)];
        }
      }
      assert localKeys[..|localKeys|] == localKeys;
    }

    /** Pull, push, signal: one migration, its status kept up to date in place. */
    method ExecuteMigration(ms: array<Migration>, i: nat, oldAddr: string) returns (ok: bool)
      requires servers.Recorded() && i < ms.Length
      modifies servers, ms
      ensures servers.Recorded() && old(servers.history) < servers.history
      ensures ms[..] == old(ms[..])[i := old(ms[i]).(status := ms[i].status)]
      ensures ms[i].status.Complete? <==> ok
      ensures Underway(old(servers.world), servers.world, servers.history, |old(servers.history)|,
                       oldAddr, old(ms[i]).newOwner.addr, old(ms[i]).key, if ok then old(ms[i]).newOwner.addr
                         else oldAddr)
      ensures servers.answering && Reachable(old(servers.world), ms[i], oldAddr) ==>
              !Has(servers.world, oldAddr, ms[i].key)
      ensures servers.repairs == old(servers.repairs)
              || Noted(old(servers.repairs), servers.repairs, oldAddr, old(ms[i]).key)
    {
      ghost var w0, from := servers.world, |servers.history|;
      ms[i] := ms[i].(status := Pulling);
      var key, target := ms[i].key, ms[i].newOwner.addr;
      var reply := PullKey(key, target, oldAddr);
      if reply.None? {
        return false;
      }
      ms[i] := ms[i].(status := Verifying);
      var accepted := PushKey(key, target, oldAddr, reply.value, w0, from);
      if !accepted {
        return false;
      }
      SignalMigrationComplete(key, target, oldAddr, w0, from);
      ms[i] := ms[i].(status := Status.Complete);
      return true;
    }

    method PullKey(key: string, target: string, oldAddr: string) returns (reply: Option<Pulled>)
      requires servers.Recorded()
      modifies servers
      ensures servers.Recorded() && old(servers.history) < servers.history
      ensures Underway(old(servers.world), servers.world, servers.history, |old(servers.history)|, oldAddr, target,
                       key, oldAddr)
      ensures reply.Some? ==> Answers(old(servers.world), oldAddr, key, reply.value, servers.world.clock)
      ensures servers.answering && key != "" && oldAddr in old(servers.world).stores && reply.None? ==>
                !Has(servers.world, oldAddr, key)
      ensures servers.repairs == old(servers.repairs) || Noted(old(servers.repairs), servers.repairs, oldAddr, key)
    {
      ghost var w0, h0 := servers.world, servers.history;
      UnderwayStarts(w0, h0, oldAddr, target, key);
      reply := servers.Pull(oldAddr, key);
      UnderwayStep(w0, w0, h0, servers.history, |h0|, oldAddr, target, key, oldAddr, {});
    }

    method PushKey(key: string, target: string, oldAddr: string, p: Pulled, ghost w0: World, ghost from: nat)
      returns (ok: bool)
      requires servers.Recorded() && Answers(w0, oldAddr, key, p, servers.world.clock)
      requires Underway(w0, servers.world, servers.history, from, oldAddr, target, key, oldAddr)
      modifies servers`world, servers`history
      ensures servers.Recorded() && old(servers.history) < servers.history
      ensures Underway(w0, servers.world, servers.history, from, oldAddr, target, key, if ok then target else oldAddr)
      ensures servers.answering && key != "" && target in old(servers.world).stores ==> ok
    {
      ghost var w1, h1 := servers.world, servers.history;
      ok := servers.Accept(target, key, p);
      UnderwayStep(w0, w1, h1, servers.history, from, oldAddr, target, key, oldAddr, {(target, key)});
      if ok {
        AcceptedIsThere(w0, w1, servers.world, servers.history, from, oldAddr, target, key, p);
      }
    }

    /** `signalMigrationComplete`; its result only goes to the log. */
    method SignalMigrationComplete(key: string, target: string, oldAddr: string, ghost w0: World, ghost from: nat)
      requires servers.Recorded()
      requires Underway(w0, servers.world, servers.history, from, oldAddr, target, key, target)
      modifies servers`world, servers`history
      ensures servers.Recorded() && old(servers.history) < servers.history
      ensures Underway(w0, servers.world, servers.history, from, oldAddr, target, key, target)
      ensures servers.answering && key != "" && oldAddr in old(servers.world).stores ==>
              !Has(servers.world, oldAddr, key)
    {
      ghost var w2, h2 := servers.world, servers.history;
      var signalled := servers.Complete(oldAddr, key);
      UnderwayStep(w0, w2, h2, servers.history, from, oldAddr, target, key, target, {(oldAddr, key)});
    }

    /** No other node shares this node's address. */
    ghost predicate AddressesDiffer(local: string, oldAddr: string)
      reads ring
    {
      forall id <- ring.nodes :: id != local ==> ring.nodes[id].addr != oldAddr
    }

    /**
      `Rebalance`. As long as no other node shares the address, in every state of a run each key is
      held by the old owner or, if it is to move, by its new owner, and afterwards the status of a
      migration tells at which of the two.
     */
    method Rebalance(local: string, oldAddr: string, localKeys: seq<string>) returns (result: Result)
      requires ring.Valid() && servers.Recorded()
      modifies this, servers
      ensures servers.Recorded() && old(servers.history) <= servers.history
      ensures old(inProgress) ==>
                && result == Result(0, 0, 0, []) && servers.history == old(servers.history)
                   && servers.world == old(servers.world)
                && servers.repairs == old(servers.repairs)
                && inProgress && lastResult == old(lastResult) && migrations == old(migrations)
      ensures !old(inProgress) ==>
                && !inProgress && lastResult == Some(result) && migrations[..] == result.migrations
                && Tallied(result, Plan(CurrentOwner(), local, localKeys), |localKeys|)
                && (Distinct(localKeys) && AddressesDiffer(local, oldAddr) ==>
                      && AllSecure(old(servers.world), servers.history, |old(servers.history)|, oldAddr,
                                   result.migrations)
                      && Whereabouts(old(servers.world), servers.world, oldAddr, result.migrations))
      ensures !old(inProgress) ==>
                && OnlyMoved(old(servers.world), servers.world, oldAddr, result.migrations)
                && Mending(old(servers.repairs), servers.repairs, oldAddr, Plan(CurrentOwner(), local, localKeys))
      ensures !old(inProgress) && servers.answering
              && AllReachable(old(servers.world), Plan(CurrentOwner(), local, localKeys), oldAddr) ==>
                GoneUpTo(servers.world, oldAddr, result.migrations, |result.migrations|)
    {
      if inProgress {
        return Result(0, 0, 0, []);
      }
      ghost var w0, from := servers.world, |servers.history|;
      inProgress := true;
      var plan := ComputeKeyMovements(local, localKeys);
      PlanIsSafe(plan, local, oldAddr, localKeys);
      var ms := new Migration[|plan|](i requires 0 <= i < |plan| => plan[i]);
      assert ms[..] == plan;
      migrations := ms;
      var moved, failed := ExecuteAll(ms, plan, oldAddr);
      result := Result(|localKeys|, moved, failed, ms[..]);
      ProgressEnds(Assignment(w0, from, oldAddr, plan, servers.answering), servers.world, servers.history,
                   Tally(ms[..], |plan|, moved, failed), |localKeys|);
      lastResult := Some(result);
      inProgress := false;
    }

    lemma PlanIsSafe(plan: seq<Migration>, local: string, oldAddr: string, localKeys: seq<string>)
      requires ring.Valid() && plan == Plan(CurrentOwner(), local, localKeys)
      ensures Distinct(localKeys) && AddressesDiffer(local, oldAddr) ==> DistinctMoves(plan, oldAddr)
      ensures forall i :: 0 <= i < |plan| ==> plan[i].status.Pending?
    {
      PlanMembers(CurrentOwner(), local, localKeys);
      forall i | 0 <= i < |plan| ensures AddressesDiffer(local, oldAddr) ==> plan[i].newOwner.addr != oldAddr {
        OwnerId(ring.State(), ring.hash(plan[i].key));
        assert Listed(plan[i], CurrentOwner(), local, localKeys);
      }
    }

    /** One round of the execution loop. */
    method MigrateOne(ms: array<Migration>, i: nat, oldAddr: string) returns (ok: bool)
      requires servers.Recorded() && i < ms.Length
      modifies servers, ms
      ensures servers.Recorded() && old(servers.history) < servers.history
      ensures ms[..] == old(ms[..])[i := old(ms[i]).(status := if ok then Status.Complete else Failed)]
      ensures Underway(old(servers.world), servers.world, servers.history, |old(servers.history)|,
                       oldAddr, old(ms[i]).newOwner.addr, old(ms[i]).key, if ok then old(ms[i]).newOwner.addr
                         else oldAddr)
      ensures servers.answering && Reachable(old(servers.world), old(ms[i]), oldAddr) ==>
                !Has(servers.world, oldAddr, old(ms[i]).key)
      ensures servers.repairs == old(servers.repairs)
              || Noted(old(servers.repairs), servers.repairs, oldAddr, old(ms[i]).key)
    {
      ok := ExecuteMigration(ms, i, oldAddr);
      if !ok {
        ms[i] := ms[i].(status := Failed);
      }
    }

    /** The execution loop; a migration that fails is recorded and the loop goes on. */
    method ExecuteAll(ms: array<Migration>, ghost plan: seq<Migration>, oldAddr: string)
      returns (moved: nat, failed: nat)
      requires servers.Recorded() && ms[..] == plan
      requires forall i :: 0 <= i < |plan| ==> plan[i].status.Pending?
      modifies servers, ms
      ensures servers.Recorded() && old(servers.history) <= servers.history
      ensures Progress(Assignment(old(servers.world), |old(servers.history)|, oldAddr, plan, servers.answering),
                       servers.world, servers.history, Tally(ms[..], |plan|, moved, failed))
      ensures Mending(old(servers.repairs), servers.repairs, oldAddr, plan)
    {
      ghost var a := Assignment(servers.world, |servers.history|, oldAddr, plan, servers.answering);
      ghost var repairs := servers.repairs;
      ProgressStarts(a, servers.history);
      moved, failed := 0, 0;
      for i := 0 to ms.Length
        invariant servers.Recorded() && old(servers.history) <= servers.history
        invariant Progress(a, servers.world, servers.history, Tally(ms[..], i, moved, failed))
        invariant Mending(repairs, servers.repairs, oldAddr, plan)
      {
        ghost var w, h, r, before := servers.world, servers.history, servers.repairs, Tally(ms[..], i, moved, failed);
        var ok := MigrateOne(ms, i, oldAddr);
        ProgressStep(a, w, servers.world, h, servers.history, before, ok);
        MendingStep(repairs, r, servers.repairs, oldAddr, plan, i);
        if ok {
          moved := moved + 1;
        } else {
          failed := failed + 1;
        }
      }
    }
  }
}
