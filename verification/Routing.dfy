/**
  Health-aware routing of client requests. Any node may receive a request; it serves the keys it
  owns and forwards the others, choosing targets by its own liveness view. The handlers call each
  other through calls that may be lost before or after taking effect.
 */
module Routing {
  import opened Lists
  import opened Expiry
  import opened StoreSpec
  import opened Topology
  import F = Forwarding

  // ---------- Who forwards to whom ----------

  /** A node that is not the key's primary may pass a request on to any other group member. */
  predicate MayForward(group: seq<string>, a: string, b: string) {
    group != [] && a != group[0] && b in group && b != a
  }

  /** Primary below replicas below outsiders. */
  function Rank(group: seq<string>, node: string): nat {
    if group != [] && node == group[0] then 0 else if node in group then 1 else 2
  }

  // ---------- Requests and their effects ----------

  datatype Reply = Value(value: string) | Done(byReplica: bool) | BadRequest | NotFound | BadGateway | NoNodes

  datatype Write = SetKey(key: string, value: string, ttlMs: int) | DeleteKey(key: string)
  {
    /** What the handlers check before anything else. */
    predicate Proper() {
      key != "" && (SetKey? ==> ttlMs >= 0)
    }
  }

  /** Work a handler hands to a goroutine. */
  datatype Task =
    | ReplicateSet(node: string, key: string, value: string, expiresAt: Time)
    | ReplicateDelete(node: string, key: string)
    | Heal(node: string, key: string, value: string, expiresAt: Time)

  function Applied(c: Config, v: View, w: Write, now: Time): View
    requires c.tracked ==> forall k <- v.order :: k in v.items
  {
    match w
    case SetKey(key, value, ttlMs) => Put(c, v, key, NextItem(v.items, key, value, Deadline(ttlMs * MILLI, now)))
    case DeleteKey(key) => Drop(v, key)
  }

  function Spawned(node: string, w: Write, now: Time): Task {
    match w
    case SetKey(key, value, ttlMs) => ReplicateSet(node, key, value, Deadline(ttlMs * MILLI, now))
    case DeleteKey(key) => ReplicateDelete(node, key)
  }

  /** A store after `Get`. */
  function Read(v: View, key: string, now: Time): View {
    if Live(v.items, key, now) then Touch(v, key) else Reap(v, key, now)
  }

  type Nodes = map<string, View>

  ghost predicate AllSound(config: string -> Config, nodes: Nodes) {
    forall n <- nodes :: Sound(config(n), nodes[n])
  }

  /** What reads of `key` may do to the stores: reorder recency and drop expired copies of the key. */
  ghost predicate OnlyRead(before: Nodes, after: Nodes, key: string, now: Time) {
    && before.Keys == after.Keys
    && forall n <- before :: after[n].items == before[n].items || after[n].items == Reaped(before[n].items, key, now)
  }

  lemma ReadIsOnlyRead(config: string -> Config, before: Nodes, nodes: Nodes, node: string, key: string, now: Time)
    requires OnlyRead(before, nodes, key, now) && AllSound(config, nodes) && node in nodes
    ensures var after := nodes[node := Read(nodes[node], key, now)];
            OnlyRead(before, after, key, now) && AllSound(config, after)
  {
    TouchSound(config(node), nodes[node], key);
    DropSound(config(node), nodes[node], key);
  }

  lemma OnlyReadThen(a: Nodes, b: Nodes, c: Nodes, key: string, now: Time)
    requires OnlyRead(a, b, key, now) && OnlyRead(b, c, key, now)
    ensures OnlyRead(a, c, key, now)
  {
    forall n <- a ensures c[n].items == a[n].items || c[n].items == Reaped(a[n].items, key, now) {
      assert n in b;
    }
  }

  predicate Holds(nodes: Nodes, node: string, key: string, now: Time) {
    node in nodes && Live(nodes[node].items, key, now)
  }

  /** Reads leave every unexpired copy of the key in place. */
  lemma OnlyReadKeeps(before: Nodes, after: Nodes, key: string, now: Time, node: string)
    requires OnlyRead(before, after, key, now)
    ensures Holds(after, node, key, now) <==> Holds(before, node, key, now)
    ensures Holds(before, node, key, now) ==> after[node].items[key] == before[node].items[key]
  {
  }

  /** Some member of `group` holds `value` unexpired. */
  ghost predicate HeldIn(nodes: Nodes, group: seq<string>, key: string, value: string, now: Time) {
    exists n <- group :: Holds(nodes, n, key, now) && nodes[n].items[key].value == value
  }

  /** A replica's unexpired copy as `/replica/get` transfers it. */
  ghost predicate SentByReplica(nodes: Nodes, group: seq<string>, key: string, value: string, expiresAt: Time,
                                now: Time) {
    exists n <- group :: n != group[0] && Holds(nodes, n, key, now)
                         && nodes[n].items[key].value == value && expiresAt == Hop(nodes[n].items[key].expiresAt)
  }

  /** Work added while reading: the primary restores its copy from a replica's. */
  ghost predicate OnlyHeals(before: seq<Task>, after: seq<Task>, nodes: Nodes, group: seq<string>, key: string,
                            now: Time) {
    && before <= after
    && forall i :: |before| <= i < |after| ==>
         && group != [] && after[i].Heal? && after[i].node == group[0] && after[i].key == key
         && SentByReplica(nodes, group, key, after[i].value, after[i].expiresAt, now)
  }

  /** The write was applied at node `n` only: the primary, which then replicates it, or a replica. */
  ghost predicate AppliedAt(config: string -> Config, group: seq<string>, before: Nodes, after: Nodes,
                            tasks: seq<Task>, tasks': seq<Task>, w: Write, now: Time, n: string) {
    && n in group && n in before && AllSound(config, before)
    && after == before[n := Applied(config(n), before[n], w, now)]
    && tasks' == if n == group[0] then tasks + [Spawned(n, w, now)] else tasks
  }

  /** What the write does to the store that applies it. */
  ghost predicate TakesWrite(c: Config, before: View, after: View, w: Write, now: Time) {
    match w
    case SetKey(key, value, ttlMs) =>
      Stores(c, before.items, after.items, key,
             Item(value, if ttlMs > 0 then now + ttlMs * MILLI else NEVER,
                  if key in before.items then before.items[key].version + 1 else 1))
    case DeleteKey(key) => key !in after.items && OthersStay(before.items, after.items, key)
  }

  lemma AppliedTakesWrite(c: Config, v: View, w: Write, now: Time)
    requires Sound(c, v)
    ensures TakesWrite(c, v, Applied(c, v, w, now), w, now)
  {
    if w.SetKey? {
      PutStores(c, v, w.key, NextItem(v.items, w.key, w.value, Deadline(w.ttlMs * MILLI, now)));
    }
  }

  /** The replication that the primary starts. */
  ghost predicate Started(task: Task, node: string, w: Write, now: Time) {
    match w
    case SetKey(key, value, ttlMs) =>
      task == ReplicateSet(node, key, value, if ttlMs > 0 then now + ttlMs * MILLI else NEVER)
    case DeleteKey(key) => task == ReplicateDelete(node, key)
  }

  /** In plain terms: one group member has taken the write, and the primary starts to replicate it; nothing else. */
  ghost predicate TakenAt(config: string -> Config, group: seq<string>, before: Nodes, after: Nodes, tasks: seq<Task>,
                          tasks': seq<Task>, w: Write, now: Time, n: string) {
    && n in group && n in before && before.Keys == after.Keys
    && TakesWrite(config(n), before[n], after[n], w, now)
    && (forall m <- before | m != n :: after[m] == before[m])
    && (n != group[0] ==> tasks' == tasks)
    && (n == group[0] ==>
          |tasks'| == |tasks| + 1 && tasks <= tasks' && Started(tasks'[|tasks|], n, w, now))
  }

  lemma AppliedIsTaken(config: string -> Config, group: seq<string>, before: Nodes, after: Nodes, tasks: seq<Task>,
                       tasks': seq<Task>, w: Write, now: Time, n: string)
    requires AppliedAt(config, group, before, after, tasks, tasks', w, now, n)
    ensures TakenAt(config, group, before, after, tasks, tasks', w, now, n)
  {
    AppliedTakesWrite(config(n), before[n], w, now);
  }

  lemma AppliedSound(c: Config, v: View, w: Write, now: Time)
    requires Sound(c, v)
    ensures Sound(c, Applied(c, v, w, now))
  {
    match w
    case SetKey(key, value, ttlMs) =>
      PutSound(c, v, key, NextItem(v.items, key, value, Deadline(ttlMs * MILLI, now)));
    case DeleteKey(key) => DropSound(c, v, key);
  }

  // ---------- What a GET may answer ----------

  /** A reply as `Forwarding` classifies it. */
  function AnswerOf(reply: Reply): F.Answer {
    match reply
    case Value(_) => F.Found
    case NotFound => F.Missing
    case NoNodes => F.NoNodes
    case _ => F.BadGateway
  }

  /** What the answer to a GET says about who holds the key, for a primary and at most one replica. */
  ghost predicate Truthful(group: seq<string>, holds: string -> bool, reliable: set<string>, node: string,
                           answer: F.Answer) {
    && (answer.Found? ==> exists n <- group :: holds(n))
    && (answer.Missing? ==> group != [] && !holds(group[0]))
    && (answer.NoNodes? <==> group == [])
    && !answer.Accepted?
    && (|group| == 2 && group[1] in reliable && holds(group[1]) ==> answer.Found?)
    && (group != [] && node == group[0] ==>
          (answer.Found? || answer.Missing?) && (holds(node) ==> answer.Found?)
          && ((forall n <- group :: !holds(n)) ==> answer.Missing?))
  }

  lemma SoleOrder(e: F.Env, node: string)
    requires |e.group| == 2
    ensures F.TryOrder(e, node) == [e.group[1]]
  {
    assert e.group[1..] == [e.group[1]];
    SelectSole(e.group[1], b => e.view(node, b));
  }

  lemma SelectSole(x: string, alive: string -> bool)
    ensures F.Select([x], alive, true) + F.Select([x], alive, false) == [x]
  {
    assert [x][1..] == [];
    assert F.Select([], alive, true) == [] && F.Select([], alive, false) == [];
  }

  /** The loops over a single replica. */
  lemma TrySole(e: F.Env, net: F.Network, path: seq<string>, r: string, fuel: nat)
    ensures F.FromReplica(e, net, path, [r])
            == if r != F.Last(path) && net(path + [r]).Replied? && e.holds(r) then F.Found else F.Missing
    ensures F.TryGet(e, net, path, [r], fuel)
            == if r == F.Last(path) then F.Answered(if e.holds(r) then F.Found else F.BadGateway)
               else if F.CallGet(e, net, path, r, fuel).Failed? then F.Answered(F.BadGateway)
               else F.CallGet(e, net, path, r, fuel)
  {
    assert [r][1..] == [];
    assert F.FromReplica(e, net, path, []) == F.Missing && F.TryGet(e, net, path, [], fuel) == F.Answered(F.BadGateway);
  }

  /** A handler at the node the path leads to answers truthfully. */
  ghost predicate GetsTruth(e: F.Env, net: F.Network, path: seq<string>, fuel: nat, reliable: set<string>) {
    var r := F.Get(e, net, path, fuel);
    r.Answered? && Truthful(e.group, e.holds, reliable, F.Last(path), r.answer)
  }

  ghost predicate Dependable(net: F.Network, reliable: set<string>) {
    forall p :: F.Last(p) in reliable ==> net(p).Replied?
  }

  lemma PrimaryIsTruthful(e: F.Env, net: F.Network, path: seq<string>, fuel: nat, reliable: set<string>)
    requires 1 <= |e.group| <= 2 && Distinct(e.group) && F.Last(path) == e.group[0] && Dependable(net, reliable)
    ensures GetsTruth(e, net, path, fuel, reliable)
  {
    assert e.group[0] in e.group;
    if |e.group| == 2 {
      assert e.group[1] in e.group && F.Last(path + [e.group[1]]) == e.group[1];
      SoleOrder(e, e.group[0]);
      TrySole(e, net, path, e.group[1], fuel);
    } else {
      assert F.TryOrder(e, e.group[0]) == [];
    }
  }

  lemma CallToPrimary(e: F.Env, net: F.Network, path: seq<string>, fuel: nat, reliable: set<string>)
    requires 1 <= |e.group| <= 2 && Distinct(e.group) && Dependable(net, reliable) && fuel >= 1
    ensures var c := F.CallGet(e, net, path, e.group[0], fuel);
            c.Failed? || (c.Answered? && Truthful(e.group, e.holds, reliable, e.group[0], c.answer))
  {
    assert F.Last(path + [e.group[0]]) == e.group[0];
    PrimaryIsTruthful(e, net, path + [e.group[0]], fuel - 1, reliable);
  }

  lemma ReplicaIsTruthful(e: F.Env, net: F.Network, path: seq<string>, fuel: nat, reliable: set<string>)
    requires |e.group| == 2 && Distinct(e.group) && F.Last(path) == e.group[1] && Dependable(net, reliable) && fuel >= 1
    ensures GetsTruth(e, net, path, fuel, reliable)
  {
    assert e.group[1] in e.group;
    CallToPrimary(e, net, path, fuel, reliable);
    SoleOrder(e, e.group[1]);
    TrySole(e, net, path, e.group[1], fuel);
  }

  /** The evaluator of `Forwarding` answers truthfully, as `HandleGet` does. */
  lemma EvaluatorIsTruthful(e: F.Env, net: F.Network, path: seq<string>, fuel: nat, reliable: set<string>)
    requires Distinct(e.group) && |e.group| <= 2 && Dependable(net, reliable) && fuel >= 2
    ensures GetsTruth(e, net, path, fuel, reliable)
  {
    var node := F.Last(path);
    if e.group != [] {
      if node == e.group[0] {
        PrimaryIsTruthful(e, net, path, fuel, reliable);
      } else if |e.group| == 2 && node == e.group[1] {
        ReplicaIsTruthful(e, net, path, fuel, reliable);
      } else {
        OutsiderIsTruthful(e, net, path, fuel, reliable);
      }
    }
  }

  lemma OutsiderIsTruthful(e: F.Env, net: F.Network, path: seq<string>, fuel: nat, reliable: set<string>)
    requires 1 <= |e.group| <= 2 && Distinct(e.group) && F.Last(path) !in e.group && Dependable(net, reliable)
             && fuel >= 2
    ensures GetsTruth(e, net, path, fuel, reliable)
  {
    assert e.group[0] in e.group;
    CallToPrimary(e, net, path, fuel, reliable);
    if |e.group| == 2 {
      assert e.group[1] in e.group && F.Last(path + [e.group[1]]) == e.group[1];
      ReplicaIsTruthful(e, net, path + [e.group[1]], fuel - 1, reliable);
      SoleOrder(e, F.Last(path));
      TrySole(e, net, path, e.group[1], fuel);
    } else {
      assert F.TryOrder(e, F.Last(path)) == [];
    }
  }

  // ---------- The nodes ----------

  class Cluster {
    const placement: Placement
    const config: string -> Config
    /** Calls to these nodes are always answered. */
    const reliable: set<string>
    /** Every liveness view reports these nodes alive. */
    const trusted: set<string>
    /** Every liveness view reports these nodes dead. Views of all other nodes are arbitrary. */
    const suspected: set<string>
    var stores: Nodes
    var tasks: seq<Task>

    constructor (placement: Placement, config: string -> Config, reliable: set<string>, trusted: set<string>,
                 suspected: set<string>, stores: Nodes)
      ensures this.placement == placement && this.config == config && this.reliable == reliable
      ensures this.trusted == trusted && this.suspected == suspected && this.stores == stores && tasks == []
    {
      this.placement, this.config, this.reliable := placement, config, reliable;
      this.trusted, this.suspected := trusted, suspected;
      this.stores, tasks := stores, [];
    }

    function Group(key: string): seq<string> {
      placement.group(key)
    }

    /** At most one replica per key, every group member runs, every store is sound. */
    ghost predicate Ready(key: string)
      reads this
    {
      && Distinct(Group(key)) && |Group(key)| <= 2
      && (forall n <- Group(key) :: n in stores)
      && AllSound(config, stores)
    }

    method IsNodeAlive(id: string) returns (alive: bool)
      ensures id in suspected ==> !alive
      ensures id in trusted - suspected ==> alive
    {
      alive := *;
      if id in suspected {
        alive := false;
      } else if id in trusted {
        alive := true;
      }
    }

    method Transport(to: string) returns (outcome: Outcome)
      ensures to in reliable ==> outcome.Replied?
    {
      outcome := Replied;
      if to !in reliable {
        outcome := *;
      }
    }

    /** Nodes seen alive first, order kept within both parts; `view` is what the liveness checks answered. */
    method SplitByAlive(ids: seq<string>) returns (order: seq<string>, ghost view: string -> bool)
      requires Distinct(ids)
      ensures order == F.Select(ids, view, true) + F.Select(ids, view, false)
      ensures forall id <- ids :: id in suspected ==> !view(id)
    {
      var alive, dead := [], [];
      view := id => false;
      for i := 0 to |ids|
        invariant alive == F.Select(ids[..i], view, true) && dead == F.Select(ids[..i], view, false)
        invariant forall j :: 0 <= j < i ==> ids[j] in suspected ==> !view(ids[j])
      {
        assert ids[..i + 1] == ids[..i] + [ids[i]];
        assert ids[i] !in ids[..i];
        var up := IsNodeAlive(ids[i]);
        ghost var next := id => if id == ids[i] then up else view(id);
        Extend(ids[..i], ids[i], view, next, up);
        view := next;
        if up {
          alive := alive + [ids[i]];
        } else {
          dead := dead + [ids[i]];
        }
      }
      assert ids[..|ids|] == ids;
      order := alive + dead;
    }

    /** The order in which the replicas of a key are tried. */
    method AttemptOrder(group: seq<string>) returns (order: seq<string>)
      requires group != [] && Distinct(group)
      ensures multiset(order) == multiset(group[1..])
    {
      DistinctReplicas(group);
      ghost var view;
      order, view := SplitByAlive(group[1..]);
      F.SelectPermutes(group[1..], view);
    }

    lemma DistinctReplicas(group: seq<string>)
      requires group != [] && Distinct(group)
      ensures Distinct(group[1..])
    {
    }

    lemma Extend(ids: seq<string>, x: string, view: string -> bool, next: string -> bool, up: bool)
      requires x !in ids && next(x) == up && forall id :: id != x ==> next(id) == view(id)
      ensures F.Select(ids + [x], next, true) == F.Select(ids, view, true) + if up then [x] else []
      ensures F.Select(ids + [x], next, false) == F.Select(ids, view, false) + if up then [] else [x]
    {
      F.SelectSnoc(ids, x, next, true);
      F.SelectSnoc(ids, x, next, false);
      F.SelectAlike(ids, view, next, true);
      F.SelectAlike(ids, view, next, false);
    }

    predicate OwnsLocal(node: string, key: string) {
      Group(key) != [] && Group(key)[0] == node
    }

    method Get(node: string, key: string, now: Time) returns (value: Option<string>)
      requires node in stores && AllSound(config, stores)
      modifies this`stores
      ensures value == if Holds(old(stores), node, key, now) then Some(old(stores)[node].items[key].value) else None
      ensures OnlyRead(old(stores), stores, key, now) && AllSound(config, stores)
    {
      value := if Live(stores[node].items, key, now) then Some(stores[node].items[key].value) else None;
      ReadIsOnlyRead(config, stores, stores, node, key, now);
      stores := stores[node := Read(stores[node], key, now)];
    }

    /** `readFromReplica`: the first replica that answers with an unexpired copy. */
    method ReadFromReplica(node: string, key: string, now: Time) returns (found: Option<Item>)
      requires Group(key) != [] && Group(key)[0] == node && Ready(key)
      ensures found.Some? ==> SentByReplica(stores, Group(key), key, found.value.value, found.value.expiresAt, now)
      ensures found.None? ==> forall n <- Group(key)[1..] :: n in reliable ==> !Holds(stores, n, key, now)
    {
      var replicas := Group(key)[1..];
      var order := AttemptOrder(Group(key));
      for i := 0 to |order|
        invariant forall j :: 0 <= j < i ==> order[j] in reliable ==> !Holds(stores, order[j], key, now)
      {
        assert order[i] in multiset(order);
        assert order[i] in replicas;
        if order[i] != node {
          var outcome := Transport(order[i]);
          if outcome.Replied? {
            var copy := Fetch(stores[order[i]].items, key, now);
            if copy.Some? {
              return Some(Relayed(copy.value));
            }
          }
        }
      }
      forall n <- replicas | n in reliable ensures !Holds(stores, n, key, now) {
        assert n in multiset(replicas);
        assert n in order;
      }
      return None;
    }

    // ---------- GET ----------

    /** A replica that always answers holds the key: then every GET can be served. */
    ghost predicate Available(nodes: Nodes, key: string, now: Time) {
      |Group(key)| == 2 && Group(key)[1] in reliable && Holds(nodes, Group(key)[1], key, now)
    }

    /** Every view reports the primary alive, and it always answers. */
    predicate Heeded(key: string) {
      Group(key) != [] && Group(key)[0] in trusted - suspected && Group(key)[0] in reliable
    }

    /** Every view reports the primary dead, and this node is the replica or can reach it. */
    predicate FailedOver(node: string, key: string) {
      && |Group(key)| == 2 && Group(key)[0] in suspected && node != Group(key)[0]
      && (node == Group(key)[1] || Group(key)[1] in reliable)
    }

    /** What the answer to a GET says about the stores it started from. */
    ghost predicate Sincere(nodes: Nodes, node: string, key: string, now: Time, reply: Reply) {
      && (reply.Value? ==> HeldIn(nodes, Group(key), key, reply.value, now))
      && (reply.NotFound? ==> Group(key) != [] && !Holds(nodes, Group(key)[0], key, now))
      && (reply.NoNodes? <==> key != "" && Group(key) == [])
      && (reply.BadRequest? <==> key == "")
      && !reply.Done?
      && (key != "" && Available(nodes, key, now) ==> reply.Value?)
      && (key != "" && Group(key) != [] && node == Group(key)[0] ==>
            (reply.Value? || reply.NotFound?)
            && ((forall n <- Group(key) :: !Holds(nodes, n, key, now)) ==> reply.NotFound?))
    }

    /**
      A GET is answered from a known store: at the primary and wherever the primary is asked and answers, and at
      every other node while all views report the primary dead.
     */
    ghost predicate Direct(nodes: Nodes, node: string, key: string, now: Time, reply: Reply) {
      key != "" && Group(key) != [] ==>
        && (node == Group(key)[0] || Heeded(key) ==>
              if Holds(nodes, Group(key)[0], key, now) then reply == Value(nodes[Group(key)[0]].items[key].value)
              else reply.Value? || reply.NotFound?)
        && (FailedOver(node, key) && Holds(nodes, Group(key)[1], key, now) ==>
              reply == Value(nodes[Group(key)[1]].items[key].value))
    }

    /** What `HandleGet` promises, in the terms of `Forwarding`. */
    lemma SincereIsTruthful(nodes: Nodes, node: string, key: string, now: Time, reply: Reply)
      requires key != "" && Sincere(nodes, node, key, now, reply) && Direct(nodes, node, key, now, reply)
      ensures Truthful(Group(key), n => Holds(nodes, n, key, now), reliable, node, AnswerOf(reply))
    {
    }

    method HandleGet(node: string, key: string, now: Time) returns (reply: Reply)
      requires Ready(key) && node in stores
      modifies this
      ensures Ready(key) && OnlyRead(old(stores), stores, key, now)
      ensures OnlyHeals(old(tasks), tasks, old(stores), Group(key), key, now)
      ensures Sincere(old(stores), node, key, now, reply)
      ensures Direct(old(stores), node, key, now, reply)
      ensures OwnsLocal(node, key) && key != "" ==>
                var healing := reply.Value? && !Holds(old(stores), node, key, now);
                && |tasks| == |old(tasks)| + (if healing then 1 else 0)
                && (healing ==> tasks[|old(tasks)|].value == reply.value)
      decreases Rank(Group(key), node), 2
    {
      if key == "" {
        return BadRequest;
      }
      if !OwnsLocal(node, key) {
        reply := ForwardWithFallback(node, key, now);
        return;
      }
      ghost var s0 := stores;
      var value := Get(node, key, now);
      if value.Some? {
        assert node in Group(key);
        return Value(value.value);
      }
      var found := ReadFromReplica(node, key, now);
      ReplicasSeeTheSame(s0, stores, key, now, found);
      if found.Some? {
        tasks := tasks + [Heal(node, key, found.value.value, found.value.expiresAt)];
        return Value(found.value.value);
      }
      return NotFound;
    }

    lemma ReplicasSeeTheSame(before: Nodes, after: Nodes, key: string, now: Time, found: Option<Item>)
      requires OnlyRead(before, after, key, now) && Group(key) != []
      requires found.Some? ==> SentByReplica(after, Group(key), key, found.value.value, found.value.expiresAt, now)
      requires found.None? ==> forall n <- Group(key)[1..] :: n in reliable ==> !Holds(after, n, key, now)
      ensures found.Some? ==> SentByReplica(before, Group(key), key, found.value.value, found.value.expiresAt, now)
      ensures found.Some? ==> HeldIn(before, Group(key), key, found.value.value, now)
      ensures found.None? ==> !Available(before, key, now)
    {
      if found.Some? {
        var n :| n in Group(key) && n != Group(key)[0] && Holds(after, n, key, now)
                 && after[n].items[key].value == found.value.value
                 && found.value.expiresAt == Hop(after[n].items[key].expiresAt);
        OnlyReadKeeps(before, after, key, now, n);
      } else if |Group(key)| == 2 {
        OnlyReadKeeps(before, after, key, now, Group(key)[1]);
        assert Group(key)[1] in Group(key)[1..];
      }
    }

    /** `forwardWithFallback`: the primary unless it is known dead, then the replica, which may be this node. */
    method ForwardWithFallback(node: string, key: string, now: Time) returns (reply: Reply)
      requires key != "" && Ready(key) && node in stores && !OwnsLocal(node, key)
      modifies this
      ensures Ready(key) && OnlyRead(old(stores), stores, key, now)
      ensures OnlyHeals(old(tasks), tasks, old(stores), Group(key), key, now)
      ensures Sincere(old(stores), node, key, now, reply)
      ensures Direct(old(stores), node, key, now, reply)
      decreases Rank(Group(key), node), 1
    {
      if Group(key) == [] {
        return NoNodes;
      }
      var alive := IsNodeAlive(Group(key)[0]);
      if alive {
        var answer := CallGet(node, Group(key)[0], key, now);
        if answer.Some? {
          return answer.value;
        }
      }
      ghost var s1, t1 := stores, tasks;
      reply := ReadReplicas(node, key, now);
      RelayReads(old(stores), s1, stores, old(tasks), t1, tasks, node, key, now, reply);
    }

    /** Two reads in a row, seen from the first one's start. */
    lemma RelayReads(a: Nodes, b: Nodes, c: Nodes, ta: seq<Task>, tb: seq<Task>, tc: seq<Task>,
                     node: string, key: string, now: Time, reply: Reply)
      requires Group(key) != []
      requires OnlyRead(a, b, key, now) && OnlyHeals(ta, tb, a, Group(key), key, now)
      requires OnlyRead(b, c, key, now) && OnlyHeals(tb, tc, b, Group(key), key, now)
      ensures OnlyRead(a, c, key, now) && OnlyHeals(ta, tc, a, Group(key), key, now)
      ensures Sincere(b, node, key, now, reply) ==> Sincere(a, node, key, now, reply)
      ensures Direct(b, node, key, now, reply) ==> Direct(a, node, key, now, reply)
    {
      OnlyReadThen(a, b, c, key, now);
      forall n ensures Holds(b, n, key, now) <==> Holds(a, n, key, now)
               ensures Holds(a, n, key, now) ==> b[n].items[key] == a[n].items[key]
      {
        OnlyReadKeeps(a, b, key, now, n);
      }
      forall i | |ta| <= i < |tc|
        ensures tc[i].Heal? && tc[i].node == Group(key)[0] && tc[i].key == key
        ensures SentByReplica(a, Group(key), key, tc[i].value, tc[i].expiresAt, now)
      {
        if i < |tb| {
          assert tc[i] == tb[i];
        }
      }
    }

    /** The loop over the replicas. */
    method ReadReplicas(node: string, key: string, now: Time) returns (reply: Reply)
      requires key != "" && Ready(key) && node in stores && Group(key) != [] && Group(key)[0] != node
      modifies this
      ensures Ready(key) && OnlyRead(old(stores), stores, key, now)
      ensures OnlyHeals(old(tasks), tasks, old(stores), Group(key), key, now)
      ensures Sincere(old(stores), node, key, now, reply)
      ensures Group(key)[0] in suspected ==> Direct(old(stores), node, key, now, reply)
      decreases Rank(Group(key), node), 0
    {
      var order := AttemptOrder(Group(key));
      OnlyReplica(Group(key), order);
      for i := 0 to |order|
        invariant i > 0 ==> !Available(old(stores), key, now) && !ReplicaServes(old(stores), node, key, now)
        invariant i == 0 ==> stores == old(stores) && tasks == old(tasks)
        invariant Ready(key) && OnlyRead(old(stores), stores, key, now)
        invariant OnlyHeals(old(tasks), tasks, old(stores), Group(key), key, now)
        invariant node in stores
      {
        if order[i] == node {
          var value := Get(node, key, now);
          if value.Some? {
            return Value(value.value);
          }
        } else {
          var answer := CallGet(node, order[i], key, now);
          if answer.Some? {
            return answer.value;
          }
        }
      }
      return BadGateway;
    }

    /** The single replica holds the key and is this node or always answers. */
    ghost predicate ReplicaServes(nodes: Nodes, node: string, key: string, now: Time) {
      && |Group(key)| == 2 && Holds(nodes, Group(key)[1], key, now)
      && (node == Group(key)[1] || Group(key)[1] in reliable)
    }

    lemma OnlyReplica(group: seq<string>, order: seq<string>)
      requires 1 <= |group| <= 2 && multiset(order) == multiset(group[1..])
      ensures order == group[1..]
    {
      assert |order| == |multiset(order)| == |group[1..]|;
      if |order| == 1 {
        assert order[0] in multiset(group[1..]);
      }
    }

    /** One GET over the network. */
    method CallGet(node: string, to: string, key: string, now: Time) returns (reply: Option<Reply>)
      requires key != "" && Ready(key) && to in stores && MayForward(Group(key), node, to)
      modifies this
      ensures Ready(key) && OnlyRead(old(stores), stores, key, now)
      ensures OnlyHeals(old(tasks), tasks, old(stores), Group(key), key, now)
      ensures reply.Some? ==>
                Sincere(old(stores), to, key, now, reply.value) && Direct(old(stores), to, key, now, reply.value)
      ensures to in reliable ==> reply.Some?
      decreases Rank(Group(key), to), 3
    {
      var outcome := Transport(to);
      if outcome.Lost? {
        return None;
      }
      var answer := HandleGet(to, key, now);
      reply := if outcome.Replied? then Some(answer) else None;
    }

    // ---------- SET and DELETE ----------

    /** What the answer to a write says. */
    ghost predicate Reported(node: string, w: Write, reply: Reply, n: Option<string>) {
      && (reply.BadRequest? <==> w.key == "" || (w.SetKey? && w.ttlMs < 0))
      && (reply.NoNodes? <==> w.Proper() && Group(w.key) == [])
      && !reply.Value? && !reply.NotFound?
      && (reply.Done? ==> n.Some? && Group(w.key) != [] && (reply.byReplica <==> n.value != Group(w.key)[0]))
      && (w.Proper() && Group(w.key) != [] ==>
            && (node == Group(w.key)[0] || Heeded(w.key) ==> reply == Done(false))
            && (|Group(w.key)| == 2 && (forall m <- Group(w.key) :: m in reliable) ==> reply.Done?)
            && (FailedOver(node, w.key) ==> reply == Done(true)))
    }

    /** Where the write was applied, if anywhere, and that nothing else changed. */
    ghost predicate Effect(before: Nodes, after: Nodes, t: seq<Task>, t': seq<Task>, w: Write, now: Time,
                           n: Option<string>) {
      if n.None? then after == before && t' == t
      else AppliedAt(config, Group(w.key), before, after, t, t', w, now, n.value)
    }

    /** `handleSet` and `handleDelete`. */
    method HandleWrite(node: string, w: Write, now: Time) returns (reply: Reply, ghost at: Option<string>)
      requires Ready(w.key) && node in stores
      modifies this
      ensures Ready(w.key)
      ensures Effect(old(stores), stores, old(tasks), tasks, w, now, at)
      ensures Reported(node, w, reply, at)
      ensures at.None? ==> stores == old(stores) && tasks == old(tasks)
      ensures at.Some? ==> TakenAt(config, Group(w.key), old(stores), stores, old(tasks), tasks, w, now, at.value)
      decreases Rank(Group(w.key), node), 2
    {
      if w.key == "" || (w.SetKey? && w.ttlMs < 0) {
        return BadRequest, None;
      }
      if !OwnsLocal(node, w.key) {
        reply, at := Forward(node, w, now);
        if at.Some? {
          AppliedIsTaken(config, Group(w.key), old(stores), stores, old(tasks), tasks, w, now, at.value);
        }
        return;
      }
      Apply(node, w, now);
      tasks := tasks + [Spawned(node, w, now)];
      AppliedIsTaken(config, Group(w.key), old(stores), stores, old(tasks), tasks, w, now, node);
      return Done(false), Some(node);
    }

    method Apply(node: string, w: Write, now: Time)
      requires node in stores && AllSound(config, stores)
      modifies this`stores
      ensures stores == old(stores)[node := Applied(config(node), old(stores)[node], w, now)]
      ensures AllSound(config, stores)
      ensures TakesWrite(config(node), old(stores)[node], stores[node], w, now)
    {
      AppliedTakesWrite(config(node), stores[node], w, now);
      AppliedSound(config(node), stores[node], w, now);
      stores := stores[node := Applied(config(node), stores[node], w, now)];
    }

    /** `forward` and `forwardWithBody`: the primary unless it is known dead. */
    method Forward(node: string, w: Write, now: Time) returns (reply: Reply, ghost at: Option<string>)
      requires w.Proper() && Ready(w.key) && node in stores && !OwnsLocal(node, w.key)
      modifies this
      ensures Ready(w.key)
      ensures Effect(old(stores), stores, old(tasks), tasks, w, now, at)
      ensures Reported(node, w, reply, at)
      decreases Rank(Group(w.key), node), 1
    {
      if Group(w.key) == [] {
        return NoNodes, None;
      }
      var alive := IsNodeAlive(Group(w.key)[0]);
      if !alive {
        reply, at := ForwardToReplica(node, w, now);
        return;
      }
      var answer;
      answer, at := CallWrite(node, Group(w.key)[0], w, now);
      reply := if answer.Some? then answer.value else BadGateway;
    }

    /** `forwardToReplica`: a replica that cannot forward any further accepts the write itself. */
    method ForwardToReplica(node: string, w: Write, now: Time) returns (reply: Reply, ghost at: Option<string>)
      requires w.Proper() && Ready(w.key) && node in stores && Group(w.key) != [] && Group(w.key)[0] != node
      requires !Heeded(w.key)
      modifies this
      ensures Ready(w.key)
      ensures Effect(old(stores), stores, old(tasks), tasks, w, now, at)
      ensures Reported(node, w, reply, at)
      decreases Rank(Group(w.key), node), 0
    {
      var order := AttemptOrder(Group(w.key));
      OnlyReplica(Group(w.key), order);
      at := None;
      for i := 0 to |order|
        invariant i > 0 ==> order[0] !in reliable && order[0] != node
        invariant i == 0 ==> stores == old(stores) && tasks == old(tasks) && at == None
        invariant Ready(w.key) && node in stores
        invariant Effect(old(stores), stores, old(tasks), tasks, w, now, at)
      {
        if order[i] == node {
          Apply(node, w, now);
          return Done(true), Some(node);
        }
        var answer;
        answer, at := CallWrite(node, order[i], w, now);
        if answer.Some? {
          PassedOn(node, w, answer.value, at);
          return answer.value, at;
        }
      }
      NobodyReplied(node, w, at);
      return BadGateway, at;
    }

    /** The replica's reply, passed on. */
    lemma PassedOn(node: string, w: Write, reply: Reply, at: Option<string>)
      requires |Group(w.key)| == 2 && node != Group(w.key)[0] && !Heeded(w.key) && w.Proper()
      requires Reported(Group(w.key)[1], w, reply, at) && Group(w.key)[1] != Group(w.key)[0]
      ensures Reported(node, w, reply, at)
    {
    }

    lemma NobodyReplied(node: string, w: Write, at: Option<string>)
      requires Group(w.key) != [] && |Group(w.key)| <= 2 && node != Group(w.key)[0] && !Heeded(w.key) && w.Proper()
      requires |Group(w.key)| == 2 ==> Group(w.key)[1] !in reliable && Group(w.key)[1] != node
      ensures Reported(node, w, BadGateway, at)
    {
    }

    /** One SET or DELETE over the network. */
    method CallWrite(node: string, to: string, w: Write, now: Time)
      returns (reply: Option<Reply>, ghost at: Option<string>)
      requires w.Proper() && Ready(w.key) && to in stores && MayForward(Group(w.key), node, to)
      modifies this
      ensures Ready(w.key)
      ensures Effect(old(stores), stores, old(tasks), tasks, w, now, at)
      ensures reply.Some? ==> Reported(to, w, reply.value, at)
      ensures to in reliable ==> reply.Some?
      decreases Rank(Group(w.key), to), 3
    {
      var outcome := Transport(to);
      if outcome.Lost? {
        return None, None;
      }
      var answer;
      answer, at := HandleWrite(to, w, now);
      reply := if outcome.Replied? then Some(answer) else None;
    }

    /**
      While every view reports the primary dead, a SET entered at the replica or at a node that it always answers
      is accepted by the replica, and a GET entered at any such node then returns it.
     */
    lemma FailoverReadsOwnWrites(before: Nodes, after: Nodes, t: seq<Task>, t': seq<Task>, w: Write, now: Time,
                                 at: Option<string>, a: string, accepted: Reply, b: string, later: Time, answer: Reply)
      requires w.SetKey? && w.Proper() && FailedOver(a, w.key) && FailedOver(b, w.key) && Distinct(Group(w.key))
      requires Reported(a, w, accepted, at) && Direct(after, b, w.key, later, answer)
      requires at.Some? ==> TakenAt(config, Group(w.key), before, after, t, t', w, now, at.value)
      requires w.ttlMs == 0 || later < now + w.ttlMs * MILLI
      requires var c := config(Group(w.key)[1]); !c.Evicts() || |w.key| + |w.value| <= c.cap
      ensures accepted == Done(true) && answer == Value(w.value)
    {
      var replica := Group(w.key)[1];
      assert at == Some(replica);
      assert Holds(after, replica, w.key, later);
    }

    /** While every view reports the primary alive and it always answers, any node reads any node's writes. */
    lemma HealthyReadsOwnWrites(before: Nodes, after: Nodes, t: seq<Task>, t': seq<Task>, w: Write, now: Time,
                                at: Option<string>, a: string, accepted: Reply, b: string, later: Time, answer: Reply)
      requires w.Proper() && Heeded(w.key)
      requires Reported(a, w, accepted, at) && Direct(after, b, w.key, later, answer)
      requires Sincere(after, b, w.key, later, answer)
      requires at.Some? ==> TakenAt(config, Group(w.key), before, after, t, t', w, now, at.value)
      requires var c := config(Group(w.key)[0]);
               w.SetKey? ==> (w.ttlMs == 0 || later < now + w.ttlMs * MILLI)
                             && (!c.Evicts() || |w.key| + |w.value| <= c.cap)
      ensures accepted == Done(false)
      ensures w.SetKey? ==> answer == Value(w.value)
      ensures w.DeleteKey? && (forall n <- Group(w.key)[1..] :: !Holds(after, n, w.key, later)) ==> answer == NotFound
    {
      var primary := Group(w.key)[0];
      assert at == Some(primary);
      if w.SetKey? {
        assert Holds(after, primary, w.key, later);
      } else {
        assert !Holds(after, primary, w.key, later);
      }
    }
  }
}
