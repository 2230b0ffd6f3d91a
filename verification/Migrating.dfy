/**
  Rebalancing on all nodes at once, as a state machine. Each node lists its keys, plans, and migrates
  one key after the other; the steps of different nodes interleave freely, time passes, sweeps run, and
  calls may be lost before or after taking effect. The ring is fixed and clients are silent.

  A pull that misses its key turns to the key's replicas; the first copy it gets is migrated without an
  expiry, and is written back at the old owner in the background, at any later time. Such write-backs
  are the only steps that misplace a copy. The second half of this module says what lists, plans and
  finished runs promise about all other misplaced copies.
 */
module Migrating {
  import opened Lists
  import opened Expiry
  import opened StoreSpec
  import opened Topology
  import opened RebalanceSpec
  import R = RingSpec

  // ---------- The cluster ----------

  /** Who owns a key, and which nodes hold its replicas. */
  datatype Cluster = Cluster(members: seq<R.Node>, owner: Owner, replicas: string -> seq<R.Node>)
  {
    /** Members have distinct IDs and addresses, and every key is owned and replicated by different ones. */
    ghost predicate Valid() {
      && (forall i, j :: 0 <= i < j < |members| ==>
           members[i].id != members[j].id && members[i].addr != members[j].addr)
      && (forall k :: owner(k).Some? && owner(k).value in members)
      && (forall k, r <- replicas(k) :: r in members && r != owner(k).value)
    }

    /** The address of the key's owner. */
    function Home(k: string): string {
      match owner(k) case Some(n) => n.addr case None => ""
    }

    /** Exactly the members run a server. */
    ghost predicate Serves(stores: Stores) {
      && (forall m <- members :: m.addr in stores)
      && (forall a <- stores :: exists m <- members :: m.addr == a)
    }

    /** Being owned by another member is being at home at another address. */
    lemma HomeIsOwner(m: R.Node, k: string)
      requires Valid() && m in members
      ensures Moves(owner, m.id, k) <==> Home(k) != m.addr
      ensures exists n <- members :: n.addr == Home(k)
    {
      var n := owner(k).value;
      var i :| 0 <= i < |members| && members[i] == n;
      var j :| 0 <= j < |members| && members[j] == m;
    }
  }

  ghost function RingCluster(r: R.RingState, hash: string -> R.Point, factor: int, members: seq<R.Node>): Cluster {
    Cluster(members, OwnerOf(r, hash), k => NodesOf(r.nodes, r.Replicas(hash(k), factor)))
  }

  function NodesOf(nodes: map<string, R.Node>, ids: seq<string>): seq<R.Node> {
    seq(|ids|, i requires 0 <= i < |ids| => if ids[i] in nodes then nodes[ids[i]] else R.Node("", ""))
  }

  /** The registered nodes, each once. */
  ghost predicate Registers(r: R.RingState, members: seq<R.Node>) {
    && (forall m <- members :: m.id in r.nodes && r.nodes[m.id] == m)
    && (forall id <- r.nodes :: r.nodes[id] in members)
    && forall i, j :: 0 <= i < j < |members| ==> members[i].id != members[j].id
  }

  /** Every registered node is a member, under its own ID. */
  ghost predicate AllMembers(nodes: map<string, R.Node>, members: seq<R.Node>) {
    forall id <- nodes :: nodes[id].id == id && nodes[id] in members
  }

  lemma RegisteredAreMembers(r: R.RingState, members: seq<R.Node>)
    requires r.WellFormed() && Registers(r, members)
    ensures AllMembers(r.nodes, members)
  {
  }

  ghost predicate AddressesDistinct(r: R.RingState) {
    forall x <- r.nodes, y <- r.nodes :: x != y ==> r.nodes[x].addr != r.nodes[y].addr
  }

  lemma NodesAre(nodes: map<string, R.Node>, ids: seq<string>, members: seq<R.Node>, owner: string)
    requires AllMembers(nodes, members) && owner in nodes && owner !in ids && forall id <- ids :: id in nodes
    ensures forall n <- NodesOf(nodes, ids) :: n in members && n != nodes[owner]
  {
    forall n <- NodesOf(nodes, ids) ensures n in members && n != nodes[owner] {
      var i :| 0 <= i < |ids| && n == NodesOf(nodes, ids)[i];
      assert n == nodes[ids[i]] && ids[i] in ids;
    }
  }

  lemma TailAvoidsHead(ids: seq<string>, head: string)
    requires Distinct([head] + ids)
    ensures head !in ids
  {
    forall i | 0 <= i < |ids| ensures ids[i] != head {
      assert ([head] + ids)[i + 1] == ids[i] && ([head] + ids)[0] == head;
    }
  }

  lemma ReplicasApart(r: R.RingState, h: R.Point, factor: int)
    requires r.WellFormed() && r.owner != map[]
    ensures r.Lookup(h).Some? && r.Lookup(h).value in r.nodes && r.Lookup(h).value !in r.Replicas(h, factor)
    ensures forall id <- r.Replicas(h, factor) :: id in r.nodes
  {
    R.LookupNoneIff(r, h);
    GroupAmongNodes(r, h, factor);
    TailAvoidsHead(r.Replicas(h, factor), r.Lookup(h).value);
    assert r.Lookup(h).value in Group(r, h, factor);
  }

  lemma OwnerNode(r: R.RingState, h: R.Point)
    requires r.WellFormed() && r.owner != map[]
    ensures r.Lookup(h).Some? && r.Lookup(h).value in r.nodes && OwnerAt(r, h) == Some(r.nodes[r.Lookup(h).value])
  {
    R.LookupNoneIff(r, h);
    OwnerId(r, h);
  }

  lemma RingPlacesAt(r: R.RingState, h: R.Point, factor: int, members: seq<R.Node>)
    requires r.WellFormed() && AllMembers(r.nodes, members) && r.owner != map[]
    ensures OwnerAt(r, h).Some? && OwnerAt(r, h).value in members
    ensures forall n <- NodesOf(r.nodes, r.Replicas(h, factor)) :: n in members && n != OwnerAt(r, h).value
  {
    OwnerNode(r, h);
    ReplicasApart(r, h, factor);
    NodesAre(r.nodes, r.Replicas(h, factor), members, r.Lookup(h).value);
  }

  /** The key has an owner exactly if `placed`, and then owner and replicas are different members. */
  ghost predicate PlacesKey(c: Cluster, k: string, placed: bool) {
    && (c.owner(k).Some? <==> placed)
    && (placed ==> c.owner(k).value in c.members)
    && (placed ==> forall n <- c.replicas(k) :: n in c.members && n != c.owner(k).value)
  }

  lemma RingClusterAt(r: R.RingState, hash: string -> R.Point, factor: int, members: seq<R.Node>, k: string)
    requires r.WellFormed() && AllMembers(r.nodes, members)
    ensures PlacesKey(RingCluster(r, hash, factor, members), k, r.owner != map[])
  {
    var c, h := RingCluster(r, hash, factor, members), hash(k);
    assert c.owner(k) == OwnerAt(r, h) && c.replicas(k) == NodesOf(r.nodes, r.Replicas(h, factor));
    R.LookupNoneIff(r, h);
    if r.owner != map[] {
      RingPlacesAt(r, h, factor, members);
    }
  }

  lemma MembersApart(r: R.RingState, members: seq<R.Node>)
    requires r.WellFormed() && Registers(r, members)
    ensures AddressesDistinct(r) <==> forall i, j :: 0 <= i < j < |members| ==> members[i].addr != members[j].addr
  {
    if AddressesDistinct(r) {
      forall i, j | 0 <= i < j < |members| ensures members[i].addr != members[j].addr {
        assert members[i] in members && members[j] in members;
      }
    }
    if forall i, j :: 0 <= i < j < |members| ==> members[i].addr != members[j].addr {
      forall x <- r.nodes, y <- r.nodes | x != y ensures r.nodes[x].addr != r.nodes[y].addr {
        var i :| 0 <= i < |members| && members[i] == r.nodes[x];
        var j :| 0 <= j < |members| && members[j] == r.nodes[y];
      }
    }
  }

  lemma ValidIff(c: Cluster, placed: bool, apart: bool)
    requires forall i, j :: 0 <= i < j < |c.members| ==> c.members[i].id != c.members[j].id
    requires apart <==> forall i, j :: 0 <= i < j < |c.members| ==> c.members[i].addr != c.members[j].addr
    requires forall k :: PlacesKey(c, k, placed)
    ensures c.Valid() <==> placed && apart
  {
    assert PlacesKey(c, "", placed);
    forall k | placed
      ensures c.owner(k).Some? && c.owner(k).value in c.members
      ensures forall n <- c.replicas(k) :: n in c.members && n != c.owner(k).value
    {
      assert PlacesKey(c, k, placed);
    }
  }

  lemma RingPlacesAll(r: R.RingState, hash: string -> R.Point, factor: int, members: seq<R.Node>,
                      c: Cluster, placed: bool)
    requires r.WellFormed() && AllMembers(r.nodes, members)
    requires c == RingCluster(r, hash, factor, members) && placed == (r.owner != map[])
    ensures forall k :: PlacesKey(c, k, placed)
  {
    forall k ensures PlacesKey(c, k, placed) {
      RingClusterAt(r, hash, factor, members, k);
    }
  }

  lemma IdsDiffer(r: R.RingState, members: seq<R.Node>)
    requires Registers(r, members)
    ensures forall i, j :: 0 <= i < j < |members| ==> members[i].id != members[j].id
  {
  }

  /** The registered nodes form such a cluster exactly if the ring has points and no two nodes share an address. */
  lemma RingClusterValidIff(r: R.RingState, hash: string -> R.Point, factor: int, members: seq<R.Node>)
    requires r.WellFormed() && Registers(r, members)
    ensures RingCluster(r, hash, factor, members).Valid() <==> r.owner != map[] && AddressesDistinct(r)
  {
    MembersApart(r, members);
    IdsDiffer(r, members);
    var c, placed := RingCluster(r, hash, factor, members), r.owner != map[];
    RegisteredAreMembers(r, members);
    RingPlacesAll(r, hash, factor, members, c, placed);
    ValidIff(c, placed, AddressesDistinct(r));
  }

  /**
    `Halfway`: the value has been read, the expiry not yet; `copy` is what was read then.
    `Missed`: the node lacks the key, and the replicas in `left` remain to be asked.
   */
  datatype Stage = Asking | Halfway(copy: Item) | Missed(left: seq<R.Node>) | Ready(reply: Pulled) | Pushed

  /**
    A running rebalance: migration `next` is at `stage`; `clean` while no pull, push or completion has been
    lost. Calls to replicas may be lost without harm.
   */
  datatype Job = Job(plan: seq<Migration>, next: nat, stage: Stage, clean: bool)
  {
    /** On to the next migration. */
    function Skip(arrived: bool): Job {
      Job(plan, next + 1, Asking, clean && arrived)
    }
  }

  /** The keys a node held when it was told to rebalance; whoever told it keeps them until its run starts. */
  datatype KeyList = KeyList(m: R.Node, keys: seq<string>)

  /**
    `listed`: the lists with which no run has been started yet, any number for each node.
    `cleared`: the addresses of nodes that have finished a run in which every call arrived.
    `repairs`: write-backs still to be made; `repaired`: where some have been made.
    `borrowed`: keys of which a pull was answered with a replica's copy.
   */
  datatype State = State(world: World, listed: multiset<KeyList>, jobs: map<string, Job>, cleared: set<string>,
                         repairs: multiset<Repair>, repaired: set<(string, string)>, borrowed: set<string>)

  function Init(world: World): State {
    State(world, multiset{}, map[], {}, multiset{}, {}, {})
  }

  datatype Action =
    | Elapse(later: Time, swept: set<string>)
    | List(m: R.Node, keys: seq<string>)
    | Start(list: KeyList)
    | Refuse(list: KeyList)
    | ReadValue(a: string, arrived: bool, order: seq<R.Node>)
    | ReadExpiry(a: string, answered: bool)
    | AskReplica(a: string, got: bool, answered: bool)
    | NotFound(a: string)
    | WriteBack(repair: Repair)
    | Push(a: string, outcome: Outcome)
    | Signal(a: string, outcome: Outcome)
    | End(a: string)

  /** `keys` are the unexpired keys at `a`, in some order. */
  ghost predicate Listing(w: World, a: string, keys: seq<string>) {
    Distinct(keys) && forall k :: k in keys <==> Has(w, a, k)
  }

  /** The node at `a` has a migration at hand, and it is at the given stage. */
  predicate Busy(s: State, a: string) {
    a in s.jobs && s.jobs[a].next < |s.jobs[a].plan| && a in s.world.stores
  }

  function AtStake(s: State, a: string): Migration
    requires Busy(s, a)
  {
    s.jobs[a].plan[s.jobs[a].next]
  }

  ghost predicate Enabled(c: Cluster, s: State, action: Action) {
    match action
    case Elapse(later, _) => later >= s.world.clock
    case List(m, keys) => m in c.members && Listing(s.world, m.addr, keys)
    case Start(list) => list.m in c.members && list in s.listed && list.m.addr !in s.jobs
    case Refuse(list) => list in s.listed && list.m.addr in s.jobs
    case ReadValue(a, _, order) =>
      Busy(s, a) && s.jobs[a].stage.Asking? && multiset(order) == multiset(c.replicas(AtStake(s, a).key))
    case ReadExpiry(a, _) => Busy(s, a) && s.jobs[a].stage.Halfway?
    case AskReplica(a, _, _) => Busy(s, a) && s.jobs[a].stage.Missed? && s.jobs[a].stage.left != []
    case NotFound(a) => Busy(s, a) && s.jobs[a].stage == Missed([])
    case WriteBack(repair) => repair in s.repairs && repair.at in s.world.stores
    case Push(a, _) => Busy(s, a) && s.jobs[a].stage.Ready? && AtStake(s, a).newOwner.addr in s.world.stores
    case Signal(a, _) => Busy(s, a) && s.jobs[a].stage.Pushed?
    case End(a) => a in s.jobs && s.jobs[a].next >= |s.jobs[a].plan|
  }

  ghost function Next(c: Cluster, s: State, action: Action): State
    requires Enabled(c, s, action)
  {
    match action
    case Elapse(later, swept) => s.(world := Elapsed(s.world, later, swept))
    case List(m, keys) => s.(listed := s.listed + multiset{KeyList(m, keys)})
    case Start(list) =>
      var j := Job(Plan(c.owner, list.m.id, list.keys), 0, Asking, true);
      s.(listed := s.listed - multiset{list}, jobs := s.jobs[list.m.addr := j])
    case Refuse(list) => s.(listed := s.listed - multiset{list})
    case ReadValue(a, arrived, order) => ValueStep(s, a, arrived, order)
    case ReadExpiry(a, answered) => ExpiryStep(s, a, answered)
    case AskReplica(a, got, answered) => AskStep(s, a, got, answered)
    case NotFound(a) => WithJob(s, a, s.jobs[a].Skip(true))
    case WriteBack(repair) => RepairStep(s, repair)
    case Push(a, outcome) => PushStep(s, a, outcome)
    case Signal(a, outcome) => SignalStep(s, a, outcome)
    case End(a) =>
      s.(jobs := s.jobs - {a}, cleared := if s.jobs[a].clean then s.cleared + {a} else s.cleared)
  }

  function WithJob(s: State, a: string, j: Job): State {
    s.(jobs := s.jobs[a := j])
  }

  /** The pull request; a server that does not hold the key unexpired turns to the replicas, in `order`. */
  function ValueStep(s: State, a: string, arrived: bool, order: seq<R.Node>): State
    requires Busy(s, a)
  {
    var j, k := s.jobs[a], AtStake(s, a).key;
    if !arrived || k == "" then WithJob(s, a, j.Skip(false))
    else
      var t := s.(world := ValueRead(s.world, a, k));
      WithJob(t, a, j.(stage := if Has(s.world, a, k) then Halfway(s.world.stores[a][k]) else Missed(order)))
  }

  /** The replica asked next has an unexpired copy, and its reply comes through; a node does not ask itself. */
  predicate Obtains(s: State, a: string, got: bool)
    requires Busy(s, a) && s.jobs[a].stage.Missed? && s.jobs[a].stage.left != []
  {
    var r := s.jobs[a].stage.left[0];
    r.addr != a && got && Has(s.world, r.addr, AtStake(s, a).key)
  }

  /** One replica is asked. Its copy is passed on without the expiry, and kept with it for the write-back. */
  function AskStep(s: State, a: string, got: bool, answered: bool): State
    requires Busy(s, a) && s.jobs[a].stage.Missed? && s.jobs[a].stage.left != []
  {
    var j, k := s.jobs[a], AtStake(s, a).key;
    if Obtains(s, a, got) then
      var copy := s.world.stores[j.stage.left[0].addr][k];
      var t := s.(repairs := s.repairs + multiset{Repair(a, k, copy.value, Hop(copy.expiresAt))},
                  borrowed := s.borrowed + {k});
      WithJob(t, a, if answered then j.(stage := Ready(Pulled(copy.value, 0))) else j.Skip(false))
    else WithJob(s, a, j.(stage := Missed(j.stage.left[1..])))
  }

  /** The write-back. */
  function RepairStep(s: State, repair: Repair): State
    requires repair.at in s.world.stores
  {
    var items := Written(s.world.stores[repair.at], repair.key, repair.value, repair.expiresAt);
    s.(world := s.world.(stores := s.world.stores[repair.at := items]),
       repairs := s.repairs - multiset{repair}, repaired := s.repaired + {(repair.at, repair.key)})
  }

  /** The rest of the pull, and its reply. */
  function ExpiryStep(s: State, a: string, answered: bool): State
    requires Busy(s, a) && s.jobs[a].stage.Halfway?
  {
    var j, k := s.jobs[a], AtStake(s, a).key;
    var reply := Pulled(j.stage.copy.value, UnixMilli(ExpiryRead(s.world, a, k)));
    WithJob(s, a, if answered then j.(stage := Ready(reply)) else j.Skip(false))
  }

  function PushStep(s: State, a: string, outcome: Outcome): State
    requires Busy(s, a) && s.jobs[a].stage.Ready? && AtStake(s, a).newOwner.addr in s.world.stores
  {
    var j, m := s.jobs[a], AtStake(s, a);
    var t := if outcome.Lost? then s else s.(world := AcceptedAt(s.world, m.newOwner.addr, m.key, j.stage.reply));
    WithJob(t, a, if outcome.Replied? then j.(stage := Pushed) else j.Skip(false))
  }

  /** The completion signal; the migration counts as complete even if it is lost. */
  function SignalStep(s: State, a: string, outcome: Outcome): State
    requires Busy(s, a)
  {
    var j, k := s.jobs[a], AtStake(s, a).key;
    if outcome.Lost? then WithJob(s, a, j.Skip(false))
    else WithJob(s.(world := CompletedAt(s.world, a, k)), a, j.Skip(true))
  }

  /** A disabled action leaves the state as it is, so every sequence of actions is a run. */
  ghost function Took(c: Cluster, s: State, action: Action): State {
    if Enabled(c, s, action) then Next(c, s, action) else s
  }

  ghost function Run(c: Cluster, s: State, actions: seq<Action>): State {
    if actions == [] then s else Took(c, Run(c, s, actions[..|actions| - 1]), actions[|actions| - 1])
  }

  // ---------- Misplaced copies ----------

  ghost function Misplaced(c: Cluster, w: World): set<(string, string)> {
    set a, k | a in w.stores && k in w.stores[a] && Live(w.stores[a], k, w.clock) && c.Home(k) != a :: (a, k)
  }

  predicate Astray(c: Cluster, w: World, a: string, k: string) {
    Has(w, a, k) && c.Home(k) != a
  }

  lemma MisplacedMembers(c: Cluster, w: World)
    ensures forall a, k :: (a, k) in Misplaced(c, w) <==> Astray(c, w, a, k)
  {
  }

  /** A misplaced copy that no write-back has put there. */
  predicate Left(c: Cluster, s: State, a: string, k: string) {
    Astray(c, s.world, a, k) && (a, k) !in s.repaired
  }

  /** No copy is left misplaced that was not so before. */
  ghost predicate NoneStray(c: Cluster, s: State, t: State) {
    && t.world.stores.Keys == s.world.stores.Keys && s.world.clock <= t.world.clock && s.repaired <= t.repaired
    && forall a, k :: Left(c, t, a, k) ==> Left(c, s, a, k)
  }

  /** A job moves planned keys from `a` to their homes. */
  ghost predicate JobOk(c: Cluster, a: string, j: Job) {
    && (forall x :: 0 <= x < |j.plan| ==> j.plan[x].newOwner.addr == c.Home(j.plan[x].key) != a)
    && forall x, y :: 0 <= x < y < |j.plan| ==> j.plan[x].key != j.plan[y].key
  }

  ghost predicate JobsOk(c: Cluster, s: State) {
    forall a <- s.jobs :: JobOk(c, a, s.jobs[a])
  }

  /** Write-backs concern borrowed keys away from their homes. */
  ghost predicate RepairsOk(c: Cluster, s: State) {
    && (forall r <- s.repairs :: c.Home(r.key) != r.at && r.key in s.borrowed)
    && (forall a, k :: (a, k) in s.repaired ==> c.Home(k) != a && k in s.borrowed)
  }

  /** No copy is misplaced that was not so before. */
  ghost predicate NoneMisplaced(c: Cluster, w: World, v: World) {
    && v.stores.Keys == w.stores.Keys && w.clock <= v.clock
    && forall a, k :: Astray(c, v, a, k) ==> Astray(c, w, a, k)
  }

  lemma ElapseStrays(c: Cluster, w: World, later: Time, swept: set<string>)
    requires later >= w.clock
    ensures NoneMisplaced(c, w, Elapsed(w, later, swept))
  {
    ElapsedKeys(w, later, swept);
  }

  lemma ValueStrays(c: Cluster, w: World, a: string, k: string)
    requires a in w.stores
    ensures NoneMisplaced(c, w, ValueRead(w, a, k))
  {
  }

  /** A copy put at its key's home leaves none astray. */
  lemma AcceptStrays(c: Cluster, w: World, k: string, p: Pulled)
    requires c.Home(k) in w.stores
    ensures NoneMisplaced(c, w, AcceptedAt(w, c.Home(k), k, p))
  {
  }

  lemma CompleteStrays(c: Cluster, w: World, a: string, k: string)
    requires a in w.stores
    ensures NoneMisplaced(c, w, CompletedAt(w, a, k))
  {
  }

  lemma StepMisplacesNone(c: Cluster, s: State, action: Action)
    requires Enabled(c, s, action) && JobsOk(c, s) && !action.WriteBack?
    ensures NoneMisplaced(c, s.world, Next(c, s, action).world)
  {
    match action
    case Elapse(later, swept) => ElapseStrays(c, s.world, later, swept);
    case ReadValue(a, _, _) => ValueStrays(c, s.world, a, AtStake(s, a).key);
    case Push(a, _) =>
      assert JobOk(c, a, s.jobs[a]);
      AcceptStrays(c, s.world, AtStake(s, a).key, s.jobs[a].stage.reply);
    case Signal(a, _) => CompleteStrays(c, s.world, a, AtStake(s, a).key);
    case _ =>
  }

  lemma RepairStrays(c: Cluster, s: State, r: Repair)
    requires r.at in s.world.stores
    ensures NoneStray(c, s, RepairStep(s, r))
  {
  }

  lemma StepStrays(c: Cluster, s: State, action: Action)
    requires Enabled(c, s, action) && JobsOk(c, s)
    ensures NoneStray(c, s, Next(c, s, action))
  {
    if action.WriteBack? {
      RepairStrays(c, s, action.repair);
    } else {
      StepMisplacesNone(c, s, action);
      assert Next(c, s, action).repaired == s.repaired;
    }
  }

  lemma RepairMisplacesIff(c: Cluster, s: State, r: Repair, a: string, k: string)
    requires r.at in s.world.stores && c.Home(r.key) != r.at
    ensures Astray(c, RepairStep(s, r).world, a, k) && !Astray(c, s.world, a, k)
            <==> r.at == a && r.key == k && !Expired(r.expiresAt, s.world.clock) && !Has(s.world, a, k)
  {
  }

  /** A step misplaces a copy exactly if it writes back an unexpired one that is not there. */
  lemma StepMisplacesIff(c: Cluster, s: State, action: Action, a: string, k: string)
    requires Enabled(c, s, action) && JobsOk(c, s) && RepairsOk(c, s)
    ensures Astray(c, Next(c, s, action).world, a, k) && !Astray(c, s.world, a, k)
            <==> && action.WriteBack? && action.repair.at == a && action.repair.key == k
                 && !Expired(action.repair.expiresAt, s.world.clock) && !Has(s.world, a, k)
  {
    if action.WriteBack? {
      RepairMisplacesIff(c, s, action.repair, a, k);
    } else {
      StepMisplacesNone(c, s, action);
    }
  }

  lemma CompletedMisplaced(c: Cluster, w: World, a: string, k: string)
    requires a in w.stores && c.Home(k) != a
    ensures Misplaced(c, CompletedAt(w, a, k)) == Misplaced(c, w) - {(a, k)}
  {
    var v := CompletedAt(w, a, k);
    MisplacedMembers(c, w);
    MisplacedMembers(c, v);
    forall b, x ensures Astray(c, v, b, x) <==> Astray(c, w, b, x) && (b, x) != (a, k) {}
  }

  lemma OneLess(s: set<(string, string)>, p: (string, string))
    requires p in s
    ensures |s - {p}| < |s|
  {
  }

  /**
    A completion signal that arrives removes exactly its own copy from the misplaced ones; one that is
    lost removes none, although the migration counts as complete.
   */
  lemma CompletionShrinksMisplaced(c: Cluster, s: State, a: string, outcome: Outcome)
    requires Enabled(c, s, Signal(a, outcome)) && JobsOk(c, s)
    ensures var k, t := AtStake(s, a).key, Next(c, s, Signal(a, outcome));
            && Misplaced(c, t.world) == Misplaced(c, s.world) - (if outcome.Lost? then {} else {(a, k)})
            && (Has(s.world, a, k) ==> (|Misplaced(c, t.world)| < |Misplaced(c, s.world)| <==> !outcome.Lost?))
  {
    var k, t := AtStake(s, a).key, Next(c, s, Signal(a, outcome));
    assert JobOk(c, a, s.jobs[a]);
    if outcome.Lost? {
      assert Misplaced(c, s.world) - {} == Misplaced(c, s.world);
    } else {
      assert t.world == CompletedAt(s.world, a, k);
      CompletedMisplaced(c, s.world, a, k);
      if Has(s.world, a, k) {
        MisplacedMembers(c, s.world);
        OneLess(Misplaced(c, s.world), (a, k));
      }
    }
  }

  /** Every key left at `a` is among those that remain to be moved. */
  ghost predicate Remaining(c: Cluster, s: State, a: string, j: Job) {
    forall k :: Left(c, s, a, k) ==> YetToMove(j, k)
  }

  ghost predicate YetToMove(j: Job, k: string) {
    exists x :: j.next <= x < |j.plan| && j.plan[x].key == k
  }

  /** A key that was missed has not turned up since, unless it was written back. */
  ghost predicate MissedOk(c: Cluster, s: State, a: string, j: Job) {
    j.stage.Missed? && j.next < |j.plan| ==> !Left(c, s, a, j.plan[j.next].key)
  }

  /** What clean jobs, lists, cleared nodes and write-backs promise about misplaced copies. */
  ghost predicate Promised(c: Cluster, s: State) {
    && (forall a <- s.cleared, k :: !Left(c, s, a, k))
    && (forall l <- s.listed, k :: Left(c, s, l.m.addr, k) ==> k in l.keys)
    && (forall l <- s.listed :: Distinct(l.keys))
    && (forall a <- s.jobs :: s.jobs[a].clean ==> Remaining(c, s, a, s.jobs[a]))
    && (forall a <- s.jobs :: MissedOk(c, s, a, s.jobs[a]))
    && (forall r <- s.repairs :: !Left(c, s, r.at, r.key))
  }

  lemma RemainingStays(c: Cluster, s: State, t: State, a: string, j: Job)
    requires NoneStray(c, s, t) && Remaining(c, s, a, j)
    ensures Remaining(c, t, a, j)
  {
  }

  /** A migration may be left behind once its key is no longer at `a`. */
  lemma SkipRemaining(c: Cluster, s: State, a: string, j: Job)
    requires Remaining(c, s, a, j) && j.next < |j.plan| && !Left(c, s, a, j.plan[j.next].key)
    ensures Remaining(c, s, a, j.Skip(true))
  {
    forall k | Left(c, s, a, k) ensures YetToMove(j.Skip(true), k) {
      var x :| j.next <= x < |j.plan| && j.plan[x].key == k;
    }
  }

  /** A fresh plan covers every misplaced key at the node. */
  lemma PlanCovers(c: Cluster, s: State, m: R.Node, keys: seq<string>)
    requires c.Valid() && m in c.members && Distinct(keys)
    requires forall k :: Left(c, s, m.addr, k) ==> k in keys
    ensures var j := Job(Plan(c.owner, m.id, keys), 0, Asking, true);
            JobOk(c, m.addr, j) && Remaining(c, s, m.addr, j)
  {
    forall k ensures Moves(c.owner, m.id, k) <==> c.Home(k) != m.addr {
      c.HomeIsOwner(m, k);
    }
    PlanIsJob(c, m, keys);
    PlanRemains(c, s, m, keys);
  }

  lemma PlanIsJob(c: Cluster, m: R.Node, keys: seq<string>)
    requires Distinct(keys) && forall k :: Moves(c.owner, m.id, k) <==> c.Home(k) != m.addr
    ensures JobOk(c, m.addr, Job(Plan(c.owner, m.id, keys), 0, Asking, true))
  {
    var plan := Plan(c.owner, m.id, keys);
    PlanIsDistinct(c.owner, m.id, keys);
    forall x | 0 <= x < |plan| ensures plan[x].newOwner.addr == c.Home(plan[x].key) != m.addr {
      PlanListed(c.owner, m.id, keys, x);
    }
  }

  lemma PlanRemains(c: Cluster, s: State, m: R.Node, keys: seq<string>)
    requires forall k :: Moves(c.owner, m.id, k) <==> c.Home(k) != m.addr
    requires forall k :: Left(c, s, m.addr, k) ==> k in keys
    ensures Remaining(c, s, m.addr, Job(Plan(c.owner, m.id, keys), 0, Asking, true))
  {
    PlanMembers(c.owner, m.id, keys);
    forall k | Left(c, s, m.addr, k) ensures YetToMove(Job(Plan(c.owner, m.id, keys), 0, Asking, true), k) {
      assert Planned(Plan(c.owner, m.id, keys), k);
    }
  }

  /** The address of the node whose job an action moves. */
  function Mover(action: Action): Option<string> {
    match action
    case ReadValue(a, _, _) => Some(a)
    case ReadExpiry(a, _) => Some(a)
    case AskReplica(a, _, _) => Some(a)
    case NotFound(a) => Some(a)
    case Push(a, _) => Some(a)
    case Signal(a, _) => Some(a)
    case _ => None
  }

  /** Lists, cleared nodes and other jobs stay as they are. */
  ghost predicate MovesOnly(s: State, t: State, a: string) {
    && t.cleared == s.cleared && t.listed == s.listed && t.repaired == s.repaired && t.world.clock == s.world.clock
    && t.jobs.Keys == s.jobs.Keys && a in s.jobs && t.jobs[a].plan == s.jobs[a].plan
    && forall b <- s.jobs :: b != a ==> t.jobs[b] == s.jobs[b]
  }

  /** Replicas are asked, and their copies kept, for a missed key only. */
  ghost predicate Borrows(s: State, t: State, a: string)
    requires Busy(s, a)
  {
    var k := AtStake(s, a).key;
    && s.borrowed <= t.borrowed <= s.borrowed + {k}
    && (t.borrowed != s.borrowed ==> s.jobs[a].stage.Missed?)
    && forall r <- t.repairs | r !in s.repairs :: r.at == a && r.key == k && s.jobs[a].stage.Missed? && k in t.borrowed
  }

  /** The job goes on with its migration, or leaves it behind: cleanly only if the key is no longer there. */
  ghost predicate MovesOn(s: State, t: State, a: string)
    requires Busy(s, a) && a in t.jobs
  {
    var j, j', k := s.jobs[a], t.jobs[a], AtStake(s, a).key;
    if j'.next == j.next then
      && j'.clean == j.clean && (Has(s.world, a, k) ==> Has(t.world, a, k))
      && (j'.stage.Missed? ==> j.stage.Missed? || !Has(t.world, a, k))
      && (j.stage.Missed? || Has(s.world, a, k) ==> j'.stage.Missed? ==> j.stage.Missed?)
    else
      && j' == j.Skip(j'.clean) && (j'.clean ==> j.clean)
      && (j'.clean ==> j.stage.Missed? || !Has(t.world, a, k))
  }

  /** A step of the job at `a`. */
  ghost predicate JobStep(s: State, t: State, a: string) {
    Busy(s, a) && MovesOnly(s, t, a) && a in t.jobs && Borrows(s, t, a) && MovesOn(s, t, a)
  }

  lemma ValueIsStep(s: State, a: string, arrived: bool, order: seq<R.Node>)
    requires Busy(s, a) && s.jobs[a].stage.Asking?
    ensures JobStep(s, ValueStep(s, a, arrived, order), a)
  {
  }

  lemma ExpiryIsStep(s: State, a: string, answered: bool)
    requires Busy(s, a) && s.jobs[a].stage.Halfway?
    ensures JobStep(s, ExpiryStep(s, a, answered), a)
  {
  }

  lemma AskIsStep(s: State, a: string, got: bool, answered: bool)
    requires Busy(s, a) && s.jobs[a].stage.Missed? && s.jobs[a].stage.left != []
    ensures JobStep(s, AskStep(s, a, got, answered), a)
  {
  }

  lemma PushIsStep(c: Cluster, s: State, a: string, outcome: Outcome)
    requires Enabled(c, s, Push(a, outcome)) && JobOk(c, a, s.jobs[a])
    ensures JobStep(s, PushStep(s, a, outcome), a)
  {
  }

  lemma SignalIsStep(s: State, a: string, outcome: Outcome)
    requires Busy(s, a)
    ensures JobStep(s, SignalStep(s, a, outcome), a)
  {
  }

  lemma MovingIsStep(c: Cluster, s: State, action: Action, a: string)
    requires Enabled(c, s, action) && JobsOk(c, s) && Mover(action) == Some(a)
    ensures JobStep(s, Next(c, s, action), a)
  {
    match action
    case ReadValue(_, arrived, order) => ValueIsStep(s, a, arrived, order);
    case ReadExpiry(_, answered) => ExpiryIsStep(s, a, answered);
    case AskReplica(_, got, answered) => AskIsStep(s, a, got, answered);
    case NotFound(_) =>
    case Push(_, outcome) =>
      assert JobOk(c, a, s.jobs[a]);
      PushIsStep(c, s, a, outcome);
    case Signal(_, outcome) => SignalIsStep(s, a, outcome);
  }

  /** Apart from such steps only a start brings a new plan, and nothing but them borrows. */
  lemma OtherStep(c: Cluster, s: State, action: Action)
    requires Enabled(c, s, action) && Mover(action).None?
    ensures var t := Next(c, s, action);
            && t.borrowed == s.borrowed && t.repairs <= s.repairs
            && (forall a, k | (a, k) in t.repaired && (a, k) !in s.repaired ::
                  exists r <- s.repairs :: r.at == a && r.key == k)
            && (forall a <- t.jobs | a in s.jobs :: t.jobs[a] == s.jobs[a])
            && (forall a <- t.jobs | a !in s.jobs :: action.Start? && action.list.m.addr == a)
  {
    match action
    case WriteBack(r) => assert r in s.repairs;
    case _ =>
  }

  /** Plans, and where write-backs go. */
  ghost predicate Orders(c: Cluster, s: State) {
    JobsOk(c, s) && RepairsOk(c, s)
  }

  lemma MovedOrders(c: Cluster, s: State, t: State, a: string)
    requires Orders(c, s) && JobStep(s, t, a)
    ensures Orders(c, t)
  {
    assert JobOk(c, a, s.jobs[a]);
    forall b <- t.jobs ensures JobOk(c, b, t.jobs[b]) {
      assert JobOk(c, b, s.jobs[b]);
    }
  }

  lemma OtherOrders(c: Cluster, s: State, action: Action)
    requires c.Valid() && Enabled(c, s, action) && Orders(c, s) && Promised(c, s) && Mover(action).None?
    ensures Orders(c, Next(c, s, action))
  {
    var t := Next(c, s, action);
    OtherStep(c, s, action);
    if action.Start? {
      PlanCovers(c, s, action.list.m, action.list.keys);
    }
    forall b <- t.jobs ensures JobOk(c, b, t.jobs[b]) {
      assert b in s.jobs ==> JobOk(c, b, s.jobs[b]);
    }
  }

  lemma OrdersStep(c: Cluster, s: State, action: Action)
    requires c.Valid() && Enabled(c, s, action) && Orders(c, s) && Promised(c, s)
    ensures Orders(c, Next(c, s, action))
  {
    if Mover(action).Some? {
      var a := Mover(action).value;
      MovingIsStep(c, s, action, a);
      MovedOrders(c, s, Next(c, s, action), a);
    } else {
      OtherOrders(c, s, action);
    }
  }

  /** The one job an action moves keeps its promise. */
  lemma OwnJobStep(c: Cluster, s: State, t: State, a: string)
    requires Promised(c, s) && NoneStray(c, s, t) && JobStep(s, t, a)
    ensures MissedOk(c, t, a, t.jobs[a]) && (t.jobs[a].clean ==> Remaining(c, t, a, t.jobs[a]))
  {
    assert MissedOk(c, s, a, s.jobs[a]);
    if t.jobs[a].clean {
      RemainingStays(c, s, t, a, s.jobs[a]);
      if t.jobs[a].next != s.jobs[a].next {
        SkipRemaining(c, t, a, s.jobs[a]);
      }
    }
  }

  /** A step of the job at `a`, seen from outside. */
  lemma JobStepPromised(c: Cluster, s: State, t: State, a: string)
    requires Promised(c, s) && NoneStray(c, s, t) && JobStep(s, t, a)
    ensures Promised(c, t)
  {
    assert MissedOk(c, s, a, s.jobs[a]);
    OwnJobStep(c, s, t, a);
    forall b <- t.jobs ensures (t.jobs[b].clean ==> Remaining(c, t, b, t.jobs[b])) && MissedOk(c, t, b, t.jobs[b]) {
      if b != a {
        OtherJobStep(c, s, t, b);
      }
    }
  }

  lemma OtherJobStep(c: Cluster, s: State, t: State, b: string)
    requires Promised(c, s) && NoneStray(c, s, t) && b in s.jobs && b in t.jobs && t.jobs[b] == s.jobs[b]
    ensures t.jobs[b].clean ==> Remaining(c, t, b, t.jobs[b])
    ensures MissedOk(c, t, b, t.jobs[b])
  {
    assert MissedOk(c, s, b, s.jobs[b]);
    if s.jobs[b].clean {
      RemainingStays(c, s, t, b, s.jobs[b]);
    }
  }

  /** Time and write-backs leave jobs and lists alone. */
  lemma OutsideStepPromised(c: Cluster, s: State, action: Action)
    requires Enabled(c, s, action) && JobsOk(c, s) && Promised(c, s) && (action.Elapse? || action.WriteBack?)
    ensures Promised(c, Next(c, s, action))
  {
    var t := Next(c, s, action);
    StepStrays(c, s, action);
    forall b <- t.jobs ensures (t.jobs[b].clean ==> Remaining(c, t, b, t.jobs[b])) && MissedOk(c, t, b, t.jobs[b]) {
      OtherJobStep(c, s, t, b);
    }
  }

  /** Lists, starts and ends change no copy. */
  lemma TurnPromised(c: Cluster, s: State, action: Action)
    requires c.Valid() && Enabled(c, s, action) && JobsOk(c, s) && Promised(c, s)
    requires action.List? || action.Start? || action.Refuse? || action.End?
    ensures Promised(c, Next(c, s, action))
  {
    var t := Next(c, s, action);
    StepStrays(c, s, action);
    if action.Start? {
      PlanCovers(c, s, action.list.m, action.list.keys);
      RemainingStays(c, s, t, action.list.m.addr, t.jobs[action.list.m.addr]);
    }
    if action.End? && s.jobs[action.a].clean {
      assert Remaining(c, s, action.a, s.jobs[action.a]);
      assert forall k :: !YetToMove(s.jobs[action.a], k);
    }
    forall b <- t.jobs ensures (t.jobs[b].clean ==> Remaining(c, t, b, t.jobs[b])) && MissedOk(c, t, b, t.jobs[b]) {
      if b in s.jobs {
        OtherJobStep(c, s, t, b);
      }
    }
  }

  lemma PromisedStep(c: Cluster, s: State, action: Action)
    requires c.Valid() && Enabled(c, s, action) && JobsOk(c, s) && Promised(c, s)
    ensures Promised(c, Next(c, s, action))
  {
    if Mover(action).Some? {
      var a := Mover(action).value;
      MovingIsStep(c, s, action, a);
      StepStrays(c, s, action);
      JobStepPromised(c, s, Next(c, s, action), a);
    } else if action.Elapse? || action.WriteBack? {
      OutsideStepPromised(c, s, action);
    } else {
      TurnPromised(c, s, action);
    }
  }
}
