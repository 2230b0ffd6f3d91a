/**
  Runs of the rebalancing cluster that exist: from every cluster one that clears all nodes, and one that
  strays because a list of keys has been overtaken by another run of its node.
 */
module ClearingRuns {
  import opened Lists
  import opened Expiry
  import opened StoreSpec
  import opened Topology
  import opened RebalanceSpec
  import opened Migrating
  import opened Provenance
  import opened Convergence
  import R = RingSpec

  // ---------- Addresses ----------

  /** Pull, push and completion in a row, with nothing in between. */
  function Moved(w: World, from: string, to: string, k: string): World
    requires Has(w, from, k) && to in w.stores
  {
    CompletedAt(AcceptedAt(w, to, k, ReplyOf(w.stores[from][k])), from, k)
  }

  function ReplyOf(copy: Item): Pulled {
    Pulled(copy.value, UnixMilli(copy.expiresAt))
  }

  /** A sole copy survives its migration exactly if old and new owner have different addresses. */
  lemma MigrationKeepsKeyIff(w: World, from: string, to: string, k: string)
    requires to in w.stores && Has(w, from, k) && Current(w.stores[from][k], w.clock)
    requires forall a :: Has(w, a, k) ==> a == from
    ensures Held(Moved(w, from, to, k), k) <==> from != to
  {
    var v, e := Moved(w, from, to, k), w.stores[from][k].expiresAt;
    if from != to {
      MatchAlive(e, Hop(e), w.clock);
      assert Has(v, to, k);
    } else {
      forall a ensures !Has(v, a, k) {
        assert Has(w, a, k) ==> a == from;
      }
    }
  }

  // ---------- Runs that clear ----------

  /** The longer run lists keys as carefully as the first one. */
  ghost predicate StaysCareful(c: Cluster, first: World, actions: seq<Action>, longer: seq<Action>, care: Care) {
    Careful(c, Init(first), actions, care) ==> Careful(c, Init(first), longer, care)
  }

  ghost predicate Movable(s: State, a: string, m: Migration) {
    && a in s.world.stores && m.key != "" && m.newOwner.addr in s.world.stores && m.newOwner.addr != a
    && Has(s.world, a, m.key)
  }

  /** The job at `a` moves its next key without any loss or delay. */
  lemma MoveOne(c: Cluster, first: World, actions: seq<Action>, a: string, care: Care) returns (longer: seq<Action>)
    requires var s := Run(c, Init(first), actions);
             Busy(s, a) && s.jobs[a].stage.Asking? && Movable(s, a, AtStake(s, a))
    ensures var s := Run(c, Init(first), actions);
            var m := AtStake(s, a);
            Run(c, Init(first), longer)
            == s.(world := Moved(s.world, a, m.newOwner.addr, m.key), jobs := s.jobs[a := s.jobs[a].Skip(true)])
    ensures StaysCareful(c, first, actions, longer, care)
  {
    var s0 := Init(first);
    var s := Run(c, s0, actions);
    var m := AtStake(s, a);
    var first', second, third := ReadValue(a, true, c.replicas(m.key)), ReadExpiry(a, true), Push(a, Replied);
    RunThen(c, s0, actions, first', care);
    RunThen(c, s0, actions + [first'], second, care);
    RunThen(c, s0, actions + [first'] + [second], third, care);
    RunThen(c, s0, actions + [first'] + [second] + [third], Signal(a, Replied), care);
    longer := actions + [first'] + [second] + [third] + [Signal(a, Replied)];
    MoveOneSteps(c, s, a);
  }

  /** The two sections of the pull. */
  lemma PullSteps(c: Cluster, s: State, a: string)
    requires Busy(s, a) && s.jobs[a].stage.Asking? && Movable(s, a, AtStake(s, a))
    ensures var k := AtStake(s, a).key;
            Took(c, Took(c, s, ReadValue(a, true, c.replicas(k))), ReadExpiry(a, true))
            == WithJob(s, a, s.jobs[a].(stage := Ready(ReplyOf(s.world.stores[a][k]))))
  {
    var k, j := AtStake(s, a).key, s.jobs[a];
    assert ValueRead(s.world, a, k) == s.world by {
      assert s.world.stores[a := s.world.stores[a]] == s.world.stores;
    }
    var t := Took(c, s, ReadValue(a, true, c.replicas(k)));
    assert t == WithJob(s, a, j.(stage := Halfway(s.world.stores[a][k])));
    SameJobs(s.jobs, a, t.jobs[a], j.(stage := Ready(ReplyOf(s.world.stores[a][k]))));
  }

  /** Setting a job twice. */
  lemma SameJobs(jobs: map<string, Job>, a: string, x: Job, y: Job)
    ensures jobs[a := x][a := y] == jobs[a := y]
  {
  }

  /** The reply stored at the new owner, and the key deleted at the old one. */
  function HandedOver(w: World, from: string, m: Migration, p: Pulled): World
    requires from in w.stores && m.newOwner.addr in w.stores
  {
    CompletedAt(AcceptedAt(w, m.newOwner.addr, m.key, p), from, m.key)
  }

  /** Push and completion. */
  lemma HandOver(c: Cluster, s: State, a: string, j: Job)
    requires Busy(s, a) && s.jobs[a].stage.Ready? && AtStake(s, a).newOwner.addr in s.world.stores
    requires j == s.jobs[a].Skip(true)
    ensures var m := AtStake(s, a);
            Took(c, Took(c, s, Push(a, Replied)), Signal(a, Replied))
            == WithJob(s, a, j).(world := HandedOver(s.world, a, m, s.jobs[a].stage.reply))
  {
    var m := AtStake(s, a);
    var t := Took(c, s, Push(a, Replied));
    assert t == WithJob(s.(world := AcceptedAt(s.world, m.newOwner.addr, m.key, s.jobs[a].stage.reply)), a,
                        s.jobs[a].(stage := Pushed));
    SameJobs(s.jobs, a, t.jobs[a], j);
  }

  lemma MoveOneSteps(c: Cluster, s: State, a: string)
    requires Busy(s, a) && s.jobs[a].stage.Asking? && Movable(s, a, AtStake(s, a))
    ensures var m := AtStake(s, a);
            var t := Took(c, Took(c, s, ReadValue(a, true, c.replicas(m.key))), ReadExpiry(a, true));
            Took(c, Took(c, t, Push(a, Replied)), Signal(a, Replied))
            == s.(world := Moved(s.world, a, m.newOwner.addr, m.key), jobs := s.jobs[a := s.jobs[a].Skip(true)])
  {
    var m, j := AtStake(s, a), s.jobs[a];
    PullSteps(c, s, a);
    var t := WithJob(s, a, j.(stage := Ready(ReplyOf(s.world.stores[a][m.key]))));
    HandOver(c, t, a, j.Skip(true));
    SameJobs(s.jobs, a, t.jobs[a], j.Skip(true));
  }

  /** A job that can move all the rest of its plan. */
  ghost predicate Eager(c: Cluster, s: State, a: string) {
    && a in s.jobs && JobOk(c, a, s.jobs[a]) && s.jobs[a].stage.Asking? && s.jobs[a].clean
    && s.jobs[a].next <= |s.jobs[a].plan| && a in s.world.stores
    && forall x :: s.jobs[a].next <= x < |s.jobs[a].plan| ==> Movable(s, a, s.jobs[a].plan[x])
  }

  lemma {:induction false} FinishJob(c: Cluster, first: World, actions: seq<Action>, a: string, care: Care)
    returns (longer: seq<Action>)
    requires Eager(c, Run(c, Init(first), actions), a)
    ensures var s, t := Run(c, Init(first), actions), Run(c, Init(first), longer);
            && t.cleared == s.cleared + {a} && t.jobs == s.jobs - {a} && t.borrowed == s.borrowed
            && t.listed == s.listed
    ensures StaysCareful(c, first, actions, longer, care)
    decreases |Run(c, Init(first), actions).jobs[a].plan| - Run(c, Init(first), actions).jobs[a].next
  {
    var s := Run(c, Init(first), actions);
    if s.jobs[a].next == |s.jobs[a].plan| {
      longer := actions + [End(a)];
      RunThen(c, Init(first), actions, End(a), care);
    } else {
      var more := MoveOne(c, first, actions, a, care);
      StaysEager(c, s, Run(c, Init(first), more), a);
      longer := FinishJob(c, first, more, a, care);
    }
  }

  lemma StaysEager(c: Cluster, s: State, t: State, a: string)
    requires Eager(c, s, a) && Busy(s, a)
    requires t == s.(world := Moved(s.world, a, AtStake(s, a).newOwner.addr, AtStake(s, a).key),
                     jobs := s.jobs[a := s.jobs[a].Skip(true)])
    ensures Eager(c, t, a)
  {
    var j := s.jobs[a];
    forall x | j.next < x < |j.plan| ensures Movable(t, a, j.plan[x]) {
      assert Movable(s, a, j.plan[x]) && j.plan[x].key != j.plan[j.next].key;
    }
  }

  lemma {:induction false} Enumerable(keys: set<string>) returns (s: seq<string>)
    ensures Distinct(s) && forall k :: k in s <==> k in keys
    decreases |keys|
  {
    s := [];
    if k :| k in keys {
      var rest := Enumerable(keys - {k});
      ConsDistinct(k, rest);
      s := [k] + rest;
    }
  }

  /** A key just listed can be moved. */
  lemma ListIsMovable(c: Cluster, first: World, s: State, m: R.Node, keys: seq<string>, x: nat)
    requires c.Valid() && c.Serves(first.stores) && Inv(c, first, s) && m in c.members
    requires !Held(first, "") && Listing(s.world, m.addr, keys) && x < |Plan(c.owner, m.id, keys)|
    ensures Movable(s, m.addr, Plan(c.owner, m.id, keys)[x])
  {
    PlanListed(c.owner, m.id, keys, x);
    var k := Plan(c.owner, m.id, keys)[x].key;
    c.HomeIsOwner(m, k);
    HeldBefore(c, first, s, m.addr, k);
    assert c.owner(k).value.addr in first.stores;
  }

  lemma HeldBefore(c: Cluster, first: World, s: State, a: string, k: string)
    requires Inv(c, first, s) && Has(s.world, a, k)
    ensures Held(first, k)
  {
    var copy := s.world.stores[a][k];
    assert CopyStems(first, s, a, k);
    StemsMixed(first, k, copy.value, copy.expiresAt, s.world.clock, k in s.borrowed);
    var b :| ValueOf(first, b, k, copy.value);
  }

  /** A node takes its turn: it lists its keys and starts a run. */
  lemma TakeTurn(c: Cluster, first: World, actions: seq<Action>, m: R.Node, keys: seq<string>, care: Care)
    returns (longer: seq<Action>)
    requires m in c.members && Listing(Run(c, Init(first), actions).world, m.addr, keys)
    requires m.addr !in Run(c, Init(first), actions).jobs
    ensures var s := Run(c, Init(first), actions);
            var j := Job(Plan(c.owner, m.id, keys), 0, Asking, true);
            && Run(c, Init(first), longer) == s.(jobs := s.jobs[m.addr := j])
            && (Unlisted(s, m.addr) ==> StaysCareful(c, first, actions, longer, care))
  {
    var s, list := Run(c, Init(first), actions), KeyList(m, keys);
    RunThen(c, Init(first), actions, List(m, keys), care);
    RunThen(c, Init(first), actions + [List(m, keys)], Start(list), care);
    longer := actions + [List(m, keys)] + [Start(list)];
    assert s.listed + multiset{list} - multiset{list} == s.listed;
  }

  lemma ListingExists(w: World, a: string) returns (keys: seq<string>)
    ensures Listing(w, a, keys)
  {
    keys := Enumerable(if a in w.stores then LiveKeys(w.stores[a], w.clock) else {});
  }

  lemma TurnIsEager(c: Cluster, first: World, s: State, t: State, m: R.Node, keys: seq<string>)
    requires c.Valid() && c.Serves(first.stores) && Inv(c, first, s) && m in c.members
    requires !Held(first, "") && Listing(s.world, m.addr, keys)
    requires t.world == s.world && m.addr in t.jobs && t.jobs[m.addr] == Job(Plan(c.owner, m.id, keys), 0, Asking, true)
    ensures Eager(c, t, m.addr)
  {
    PlanCovers(c, s, m, keys);
    forall x | 0 <= x < |Plan(c.owner, m.id, keys)| ensures Movable(t, m.addr, Plan(c.owner, m.id, keys)[x]) {
      ListIsMovable(c, first, s, m, keys, x);
    }
    assert m.addr in first.stores;
  }

  /** A node whose turn it is can always clear itself. */
  lemma ClearMember(c: Cluster, first: World, actions: seq<Action>, m: R.Node) returns (longer: seq<Action>)
    requires c.Valid() && c.Serves(first.stores) && !Held(first, "") && m in c.members
    requires Run(c, Init(first), actions).jobs == map[] && Run(c, Init(first), actions).listed == multiset{}
    requires Orderly(c, Init(first), actions)
    ensures var s, t := Run(c, Init(first), actions), Run(c, Init(first), longer);
            && t.jobs == map[] && t.listed == multiset{}
            && t.cleared == s.cleared + {m.addr} && t.borrowed == s.borrowed
    ensures Orderly(c, Init(first), longer)
  {
    var s := Run(c, Init(first), actions);
    RunKeepsInv(c, first, actions);
    var keys := ListingExists(s.world, m.addr);
    var care := Care(true, true);
    var more := TakeTurn(c, first, actions, m, keys, care);
    TurnIsEager(c, first, s, Run(c, Init(first), more), m, keys);
    longer := FinishJob(c, first, more, m.addr, care);
  }

  lemma {:induction false} ClearSome(c: Cluster, first: World, i: nat) returns (actions: seq<Action>)
    requires c.Valid() && c.Serves(first.stores) && !Held(first, "") && i <= |c.members|
    ensures var s := Run(c, Init(first), actions);
            && s.jobs == map[] && s.listed == multiset{} && s.borrowed == {} && Orderly(c, Init(first), actions)
            && forall j :: 0 <= j < i ==> c.members[j].addr in s.cleared
  {
    actions := [];
    if i > 0 {
      actions := ClearSome(c, first, i - 1);
      actions := ClearMember(c, first, actions, c.members[i - 1]);
    }
  }

  /** From every cluster whose keys have names there is an orderly run that clears every node and borrows no key. */
  lemma ClearingRunExists(c: Cluster, first: World)
    requires c.Valid() && c.Serves(first.stores) && !Held(first, "")
    ensures exists actions ::
              && Orderly(c, Init(first), actions) && Run(c, Init(first), actions).borrowed == {}
              && forall m <- c.members :: m.addr in Run(c, Init(first), actions).cleared
  {
    var actions := ClearSome(c, first, |c.members|);
    assert forall m <- c.members :: m.addr in Run(c, Init(first), actions).cleared;
  }

  // ---------- A run that strays ----------

  /** Three nodes; the third owns every key, and the second has its replicas. */
  function Trio(): Cluster {
    var a, b, h := R.Node("a", "a"), R.Node("b", "b"), R.Node("h", "h");
    Cluster([a, b, h], _ => Some(h), _ => [b])
  }

  /** The first two hold a copy of the key. */
  function TwoCopies(k: string, item: Item, now: Time): World {
    World(map["a" := map[k := item], "b" := map[k := item], "h" := map[]], now)
  }

  predicate Transferable(item: Item, now: Time) {
    item.expiresAt >= MILLI && Current(item, now)
  }

  function Handed(k: string): Migration {
    Migration(k, R.Node("h", "h"), Pending)
  }

  /** A job that moves the key, at the given stage. */
  function Handing(k: string, stage: Stage): Job {
    Job([Handed(k)], 0, stage, true)
  }

  lemma TrioPlans(m: R.Node, k: string)
    requires m in Trio().members && m.id != "h"
    ensures Plan(Trio().owner, m.id, [k]) == [Handed(k)] && Plan(Trio().owner, "h", []) == []
  {
    PlanSnoc(Trio().owner, m.id, [], k);
    assert [] + [k] == [k];
  }

  /** A job whose plan is done ends. */
  lemma EndJob(first: World, actions: seq<Action>, a: string, k: string, care: Care) returns (longer: seq<Action>)
    requires var s := Run(Trio(), Init(first), actions);
             a in s.jobs && s.jobs[a] == Handing(k, Asking).Skip(true)
    ensures var s := Run(Trio(), Init(first), actions);
            Run(Trio(), Init(first), longer) == s.(jobs := s.jobs - {a}, cleared := s.cleared + {a})
    ensures StaysCareful(Trio(), first, actions, longer, care)
  {
    RunThen(Trio(), Init(first), actions, End(a), care);
    longer := actions + [End(a)];
  }

  lemma SoleJob(jobs: map<string, Job>, a: string, x: Job, y: Job)
    requires a !in jobs
    ensures jobs[a := x][a := y] - {a} == jobs
  {
  }

  /** A node moves its only key. */
  lemma QuickTurn(first: World, actions: seq<Action>, m: R.Node, k: string, care: Care) returns (longer: seq<Action>)
    requires var s := Run(Trio(), Init(first), actions);
             && m in Trio().members && m.id != "h" && Listing(s.world, m.addr, [k]) && m.addr !in s.jobs
             && Unlisted(s, m.addr) && Movable(s, m.addr, Handed(k))
    ensures var s := Run(Trio(), Init(first), actions);
            Run(Trio(), Init(first), longer)
            == s.(world := Moved(s.world, m.addr, "h", k), cleared := s.cleared + {m.addr})
    ensures StaysCareful(Trio(), first, actions, longer, care)
  {
    var s := Run(Trio(), Init(first), actions);
    TrioPlans(m, k);
    longer := TakeTurn(Trio(), first, actions, m, [k], care);
    longer := MoveOne(Trio(), first, longer, m.addr, care);
    longer := EndJob(first, longer, m.addr, k, care);
    SoleJob(s.jobs, m.addr, Handing(k, Asking), Handing(k, Asking).Skip(true));
  }

  /** The owner has nothing to move. */
  lemma OwnerTurn(first: World, care: Care) returns (actions: seq<Action>)
    requires Listing(first, "h", [])
    ensures Run(Trio(), Init(first), actions) == Init(first).(cleared := {"h"})
    ensures Careful(Trio(), Init(first), actions, care)
  {
    var s, h := Init(first), R.Node("h", "h");
    TrioPlans(R.Node("a", "a"), "");
    actions := TakeTurn(Trio(), first, [], h, [], care);
    RunThen(Trio(), s, actions, End("h"), care);
    actions := actions + [End("h")];
  }

  /** The first node's list of its only key. */
  function KeyOfA(k: string): KeyList {
    KeyList(R.Node("a", "a"), [k])
  }

  lemma ListOnce(first: World, actions: seq<Action>, k: string, care: Care) returns (longer: seq<Action>)
    requires Listing(Run(Trio(), Init(first), actions).world, "a", [k])
    ensures var s := Run(Trio(), Init(first), actions);
            && Run(Trio(), Init(first), longer) == s.(listed := s.listed + multiset{KeyOfA(k)})
            && (Heeds(s, List(R.Node("a", "a"), [k]), care) ==> StaysCareful(Trio(), first, actions, longer, care))
  {
    var m := R.Node("a", "a");
    assert m in Trio().members;
    RunThen(Trio(), Init(first), actions, List(m, [k]), care);
    longer := actions + [List(m, [k])];
  }

  lemma StartA(first: World, actions: seq<Action>, k: string, care: Care) returns (longer: seq<Action>)
    requires var s := Run(Trio(), Init(first), actions); KeyOfA(k) in s.listed && "a" !in s.jobs
    ensures var s := Run(Trio(), Init(first), actions);
            Run(Trio(), Init(first), longer)
            == s.(listed := s.listed - multiset{KeyOfA(k)}, jobs := s.jobs["a" := Handing(k, Asking)])
    ensures StaysCareful(Trio(), first, actions, longer, care)
  {
    TrioPlans(R.Node("a", "a"), k);
    RunThen(Trio(), Init(first), actions, Start(KeyOfA(k)), care);
    longer := actions + [Start(KeyOfA(k))];
  }

  /** What the first node heeds when it lists its key twice: only runs, or only lists. */
  function HalfCare(early: bool): Care {
    Care(early, !early)
  }

  /**
    A node lists its only key twice, both times before it starts a run, or the second time during the run:
    one list is left.
   */
  lemma ListTwice(first: World, actions: seq<Action>, k: string, early: bool) returns (longer: seq<Action>)
    requires var s := Run(Trio(), Init(first), actions);
             Listing(s.world, "a", [k]) && s.jobs == map[] && s.listed == multiset{}
    ensures var s := Run(Trio(), Init(first), actions);
            Run(Trio(), Init(first), longer)
            == s.(listed := multiset{KeyOfA(k)}, jobs := map["a" := Handing(k, Asking)])
    ensures StaysCareful(Trio(), first, actions, longer, HalfCare(early))
  {
    var care := HalfCare(early);
    longer := ListOnce(first, actions, k, care);
    if early {
      longer := ListOnce(first, longer, k, care);
      longer := StartA(first, longer, k, care);
    } else {
      longer := StartA(first, longer, k, care);
      longer := ListOnce(first, longer, k, care);
    }
  }

  /** It moves the key, and has the second list still to work on. */
  lemma StaleTurn(first: World, actions: seq<Action>, k: string, early: bool) returns (longer: seq<Action>)
    requires var s := Run(Trio(), Init(first), actions);
             && s.listed == multiset{} && s.jobs == map[] && Listing(s.world, "a", [k]) && Movable(s, "a", Handed(k))
    ensures var s := Run(Trio(), Init(first), actions);
            Run(Trio(), Init(first), longer)
            == s.(world := Moved(s.world, "a", "h", k), listed := multiset{KeyOfA(k)}, cleared := s.cleared + {"a"})
    ensures StaysCareful(Trio(), first, actions, longer, HalfCare(early))
  {
    var care := HalfCare(early);
    longer := ListTwice(first, actions, k, early);
    longer := MoveOne(Trio(), first, longer, "a", care);
    longer := EndJob(first, longer, "a", k, care);
    SoleJob(map[], "a", Handing(k, Asking), Handing(k, Asking).Skip(true));
  }

  /** Working on the stale list ... */
  lemma StartStale(s: State, k: string)
    requires s.listed == multiset{KeyOfA(k)} && s.jobs == map[]
    ensures Took(Trio(), s, Start(KeyOfA(k))) == s.(listed := multiset{}, jobs := map["a" := Handing(k, Asking)])
  {
    TrioPlans(R.Node("a", "a"), k);
  }

  /** ... the node misses the key ... */
  lemma MissOne(s: State, k: string)
    requires s.jobs == map["a" := Handing(k, Asking)] && k != "" && "a" in s.world.stores && !Stored(s.world, "a", k)
    ensures Took(Trio(), s, ReadValue("a", true, Trio().replicas(k)))
            == s.(jobs := map["a" := Handing(k, Missed([R.Node("b", "b")]))])
  {
    assert s.world.stores["a" := s.world.stores["a"]] == s.world.stores;
  }

  /** ... and borrows the replica's copy. */
  lemma AskOne(s: State, k: string)
    requires s.jobs == map["a" := Handing(k, Missed([R.Node("b", "b")]))] && "a" in s.world.stores
             && Has(s.world, "b", k)
    ensures var copy := s.world.stores["b"][k];
            Took(Trio(), s, AskReplica("a", true, true))
            == s.(jobs := map["a" := Handing(k, Ready(Pulled(copy.value, 0)))],
                  repairs := s.repairs + multiset{Repair("a", k, copy.value, Hop(copy.expiresAt))},
                  borrowed := s.borrowed + {k})
  {
  }

  lemma BorrowOne(first: World, actions: seq<Action>, k: string, care: Care) returns (longer: seq<Action>)
    requires var s := Run(Trio(), Init(first), actions);
             && s.listed == multiset{KeyOfA(k)} && s.jobs == map[] && k != "" && "a" in s.world.stores
             && !Stored(s.world, "a", k) && Has(s.world, "b", k)
    ensures var s := Run(Trio(), Init(first), actions);
            var copy := s.world.stores["b"][k];
            Run(Trio(), Init(first), longer)
            == s.(listed := multiset{}, jobs := map["a" := Handing(k, Ready(Pulled(copy.value, 0)))],
                  repairs := s.repairs + multiset{Repair("a", k, copy.value, Hop(copy.expiresAt))},
                  borrowed := s.borrowed + {k})
    ensures StaysCareful(Trio(), first, actions, longer, care)
  {
    var s := Run(Trio(), Init(first), actions);
    RunThen(Trio(), Init(first), actions, Start(KeyOfA(k)), care);
    StartStale(s, k);
    longer := actions + [Start(KeyOfA(k))];
    RunThen(Trio(), Init(first), longer, ReadValue("a", true, Trio().replicas(k)), care);
    MissOne(Run(Trio(), Init(first), longer), k);
    longer := longer + [ReadValue("a", true, Trio().replicas(k))];
    RunThen(Trio(), Init(first), longer, AskReplica("a", true, true), care);
    AskOne(Run(Trio(), Init(first), longer), k);
    longer := longer + [AskReplica("a", true, true)];
  }

  /** What has been borrowed is handed over. */
  lemma HandOverBorrowed(first: World, actions: seq<Action>, k: string, p: Pulled, care: Care)
    returns (longer: seq<Action>)
    requires var s := Run(Trio(), Init(first), actions);
             s.jobs == map["a" := Handing(k, Ready(p))] && "a" in s.world.stores && "h" in s.world.stores
    ensures var s := Run(Trio(), Init(first), actions);
            Run(Trio(), Init(first), longer)
            == s.(world := HandedOver(s.world, "a", Handed(k), p), jobs := map[], cleared := s.cleared + {"a"})
    ensures StaysCareful(Trio(), first, actions, longer, care)
  {
    var s := Run(Trio(), Init(first), actions);
    HandOver(Trio(), s, "a", s.jobs["a"].Skip(true));
    RunThen(Trio(), Init(first), actions, Push("a", Replied), care);
    longer := actions + [Push("a", Replied)];
    RunThen(Trio(), Init(first), longer, Signal("a", Replied), care);
    longer := longer + [Signal("a", Replied)];
    longer := EndJob(first, longer, "a", k, care);
  }

  function OneMoved(k: string, item: Item, now: Time): World
    requires Transferable(item, now)
  {
    TwoCopiesHeld(k, item, now);
    Moved(TwoCopies(k, item, now), "a", "h", k)
  }

  /**
    Two migrations in a row, between them the replica's copy is borrowed; after them it is handed over and
    written back.
   */
  function Straying(k: string, item: Item, now: Time): World
    requires Transferable(item, now)
  {
    TwoCopiesHeld(k, item, now);
    var w := Moved(OneMoved(k, item, now), "b", "h", k);
    var v := HandedOver(w, "a", Handed(k), Pulled(item.value, 0));
    v.(stores := v.stores["a" := Written(v.stores["a"], k, item.value, Hop(item.expiresAt))])
  }

  lemma TwoCopiesHeld(k: string, item: Item, now: Time)
    requires Transferable(item, now)
    ensures var w := TwoCopies(k, item, now);
            && Listing(w, "h", []) && Listing(w, "a", [k]) && Has(w, "a", k) && Fresh(w, k, now)
            && var v := Moved(w, "a", "h", k);
            && !Stored(v, "a", k) && Has(v, "b", k) && v.stores["b"][k] == item && Listing(v, "b", [k])
  {
    MatchAlive(item.expiresAt, item.expiresAt, now);
  }

  /** In the end the old owner has the key again, and its owner has it for ever. */
  lemma StrayingWorld(k: string, item: Item, now: Time)
    requires Transferable(item, now)
    ensures var w := Straying(k, item, now);
            && w.clock == now && Misplaced(Trio(), w) == {("a", k)}
            && Stored(w, "h", k) && w.stores["h"][k].expiresAt == NEVER
  {
    var w := Straying(k, item, now);
    TwoCopiesHeld(k, item, now);
    MatchAlive(item.expiresAt, Hop(item.expiresAt), now);
    MisplacedMembers(Trio(), w);
    assert Has(w, "a", k) && !Stored(w, "b", k);
  }

  lemma TrioIsValid(k: string, item: Item, now: Time)
    ensures Trio().Valid() && Trio().Serves(TwoCopies(k, item, now).stores)
  {
    var ms, stores := Trio().members, TwoCopies(k, item, now).stores;
    forall a <- stores ensures exists m <- ms :: m.addr == a {
      assert ms[0].addr == "a" && ms[1].addr == "b" && ms[2].addr == "h";
      assert ms[0] in ms && ms[1] in ms && ms[2] in ms;
    }
  }

  function StrayRepair(k: string, item: Item): Repair {
    Repair("a", k, item.value, Hop(item.expiresAt))
  }

  /** Up to the borrowing. */
  lemma StrayingStart(k: string, item: Item, now: Time, early: bool) returns (actions: seq<Action>)
    requires k != "" && Transferable(item, now)
    ensures Run(Trio(), Init(TwoCopies(k, item, now)), actions)
            == State(OneMoved(k, item, now), multiset{}, map["a" := Handing(k, Ready(Pulled(item.value, 0)))],
                     {"h", "a"}, multiset{StrayRepair(k, item)}, {}, {k})
    ensures Careful(Trio(), Init(TwoCopies(k, item, now)), actions, HalfCare(early))
  {
    var first := TwoCopies(k, item, now);
    TwoCopiesHeld(k, item, now);
    actions := OwnerTurn(first, HalfCare(early));
    actions := StaleTurn(first, actions, k, early);
    actions := BorrowOne(first, actions, k, HalfCare(early));
  }

  lemma StrayingActions(k: string, item: Item, now: Time, early: bool) returns (actions: seq<Action>)
    requires k != "" && Transferable(item, now)
    ensures var s := Run(Trio(), Init(TwoCopies(k, item, now)), actions);
            s.world == Straying(k, item, now) && s.cleared == {"h", "a", "b"}
    ensures Careful(Trio(), Init(TwoCopies(k, item, now)), actions, HalfCare(early))
  {
    var c, first, care := Trio(), TwoCopies(k, item, now), HalfCare(early);
    TwoCopiesHeld(k, item, now);
    actions := StrayingStart(k, item, now, early);
    actions := QuickTurn(first, actions, R.Node("b", "b"), k, care);
    actions := HandOverBorrowed(first, actions, k, Pulled(item.value, 0), care);
    RunThen(c, Init(first), actions, WriteBack(StrayRepair(k, item)), care);
    actions := actions + [WriteBack(StrayRepair(k, item))];
  }

  /**
    For any key and any item that expires: a list that has been overtaken by another run of its node
    makes a pull miss, and although every node has then finished a run in which all calls arrived and
    the original copies are still current, the old owner has the key again and its owner will keep it
    for ever. To list keys between runs only is not enough to prevent that (`early`), nor is it enough to
    have one list at a time.
   */
  lemma StrayingRun(k: string, item: Item, now: Time, early: bool) returns (actions: seq<Action>)
    requires k != "" && Transferable(item, now)
    ensures var c, first := Trio(), TwoCopies(k, item, now);
            var s := Run(c, Init(first), actions);
            && c.Valid() && c.Serves(first.stores) && (forall m <- c.members :: m.addr in s.cleared)
            && Fresh(first, k, s.world.clock) && Misplaced(c, s.world) == {("a", k)}
            && Stored(s.world, "h", k) && s.world.stores["h"][k].expiresAt == NEVER
            && Careful(c, Init(first), actions, HalfCare(early))
  {
    actions := StrayingActions(k, item, now, early);
    TwoCopiesHeld(k, item, now);
    TrioIsValid(k, item, now);
    StrayingWorld(k, item, now);
  }
}
