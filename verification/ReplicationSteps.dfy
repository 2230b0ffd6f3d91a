/**
  Asynchronous replication with everything in flight at once. The replication of each write and the
  retry pass are goroutines; their steps, those of writes to any keys, sweeps and the clock
  interleave freely. A key counts as overlapped once one of its writes begins while something of that
  key is still in flight, or a pass picks it up while a write of it is being replicated, and until one
  of its writes begins with nothing of it in flight; about every other key the accounts are kept.
 */
module ReplicationSteps {
  import opened Lists
  import opened Expiry
  import opened StoreSpec
  import opened Topology
  import opened Replication

  datatype Host = Host(node: string, p: Placement, limits: Limits)

  /**
    `Stamping`: stored at clock reading `at`, the expiry to send not yet computed; `Failing`: the failure is not
    yet recorded.
   */
  datatype Stage = Stamping(ttl: int, at: Time) | Sending | Failing

  /** The goroutine that replicates one write; member `next` of the group is its turn. */
  datatype Task = Task(key: string, value: string, written: Time, sent: Time, next: nat, stage: Stage)

  datatype PassStage = Fetching | Fetched(item: Item) | Forgetting

  /** A retry pass; target `n` is its turn. */
  datatype Pass = Pass(targets: seq<Target>, n: nat, stage: PassStage)

  datatype State = State(
    stores: Stores,
    clock: Time,
    pending: Table,
    gaveUp: set<(string, string)>,
    sent: Announced,
    tasks: map<nat, Task>,
    pass: Option<Pass>,
    overlapped: set<string>)

  datatype Action =
    | Elapse(later: Time, swept: set<string>)
    | Write(id: nat, key: string, value: string, ttl: int)
    | Stamp(id: nat)
    | Send(id: nat, outcome: Outcome)
    | Track(id: nat)
    | Finish(id: nat)
    | Scan(targets: seq<Target>, pruned: Table)
    | Fetch
    | Resend(outcome: Outcome)
    | Forget
    | EndPass

  // ---------- Steps ----------

  predicate TaskOf(s: State, id: nat, key: string) {
    id in s.tasks && s.tasks[id].key == key
  }

  predicate Replicating(s: State, key: string) {
    exists id <- s.tasks :: s.tasks[id].key == key
  }

  /** The pass has a target of the key at hand or ahead. */
  predicate Retrying(s: State, key: string) {
    s.pass.Some? && exists x :: s.pass.value.n <= x < |s.pass.value.targets| && s.pass.value.targets[x].key == key
  }

  predicate AtHand(s: State) {
    s.pass.Some? && s.pass.value.n < |s.pass.value.targets|
  }

  function TargetAtHand(s: State): Target
    requires AtHand(s)
  {
    s.pass.value.targets[s.pass.value.n]
  }

  function Entries(t: Table): set<(string, string)> {
    set k, r | k in t && r in t[k] :: (k, r)
  }

  ghost predicate Enabled(h: Host, s: State, a: Action) {
    match a
    case Elapse(later, _) => later >= s.clock
    case Write(id, key, _, _) => id !in s.tasks && Served(h.p, h.node, key) && h.node in s.stores
    case Stamp(id) => id in s.tasks && s.tasks[id].stage.Stamping?
    case Send(id, _) => id in s.tasks && s.tasks[id].stage.Sending? && Turn(h, s, id)
    case Track(id) => id in s.tasks && s.tasks[id].stage.Failing? && Turn(h, s, id)
    case Finish(id) => id in s.tasks && s.tasks[id].stage.Sending? && s.tasks[id].next >= |h.p.group(s.tasks[id].key)|
    case Scan(targets, pruned) =>
      && s.pass.None? && Tidy(pruned)
      && Pruned(s.pending, pruned, h.limits, s.clock, Entries(s.pending))
      && Collected(s.pending, h.limits, s.clock, Entries(s.pending), targets)
    case Fetch => AtHand(s) && s.pass.value.stage.Fetching? && h.node in s.stores
    case Resend(_) => AtHand(s) && s.pass.value.stage.Fetched? && TargetAtHand(s).replica in s.stores
    case Forget => AtHand(s) && s.pass.value.stage.Forgetting?
    case EndPass => s.pass.Some? && !AtHand(s)
  }

  predicate Turn(h: Host, s: State, id: nat)
    requires id in s.tasks
  {
    var t := s.tasks[id];
    t.next < |h.p.group(t.key)| && h.p.group(t.key)[t.next] in s.stores
  }

  function SweptAll(stores: Stores, later: Time, swept: set<string>): Stores {
    map n | n in stores :: if n in swept then Swept(stores[n], later) else stores[n]
  }

  function ElapseStep(s: State, later: Time, swept: set<string>): State {
    s.(clock := later, stores := SweptAll(s.stores, later, swept))
  }

  ghost function Next(h: Host, s: State, a: Action): State
    requires Enabled(h, s, a)
  {
    match a
    case Elapse(later, swept) => ElapseStep(s, later, swept)
    case Write(id, key, value, ttl) => WriteStep(h, s, id, key, value, ttl)
    case Stamp(id) =>
      var t := s.tasks[id];
      var u := Deadline(t.stage.ttl, s.clock);
      s.(tasks := s.tasks[id := t.(sent := u, stage := Sending)], sent := s.sent[t.key := u])
    case Send(id, outcome) => SendNext(h, s, id, outcome)
    case Track(id) =>
      var t := s.tasks[id];
      s.(tasks := s.tasks[id := t.(next := t.next + 1, stage := Sending)],
         pending := Tracked(s.pending, t.key, h.p.group(t.key)[t.next], s.clock))
    case Finish(id) => s.(tasks := s.tasks - {id})
    case Scan(targets, pruned) =>
      s.(pending := pruned, gaveUp := s.gaveUp + GivenUp(s.pending, h.limits, s.clock),
         pass := Some(Pass(targets, 0, Fetching)),
         overlapped := s.overlapped + (set t <- targets | Replicating(s, t.key) :: t.key))
    case Fetch =>
      var copy := StoreSpec.Fetch(s.stores[h.node], TargetAtHand(s).key, s.clock);
      WithStage(s, if copy.None? then Forgetting else Fetched(copy.value))
    case Resend(outcome) => ResendStep(s, outcome)
    case Forget => NextTarget(s.(pending := Forgotten(s.pending, TargetAtHand(s).key, TargetAtHand(s).replica)))
    case EndPass => s.(pass := None)
  }

  /** `handleSet`: the copy is stored, and a goroutine starts to replicate it. */
  function WriteStep(h: Host, s: State, id: nat, key: string, value: string, ttl: int): State
    requires h.node in s.stores
  {
    var e := Deadline(ttl, s.clock);
    s.(stores := s.stores[h.node := Written(s.stores[h.node], key, value, e)],
       tasks := s.tasks[id := Task(key, value, e, e, 1, Stamping(ttl, s.clock))],
       gaveUp := s.gaveUp - AllPairs(s.gaveUp, key),
       overlapped := if Replicating(s, key) || Retrying(s, key) then s.overlapped + {key} else s.overlapped - {key})
  }

  function SendNext(h: Host, s: State, id: nat, outcome: Outcome): State
    requires id in s.tasks && Turn(h, s, id)
  {
    var t := s.tasks[id];
    var r := h.p.group(t.key)[t.next];
    s.(stores := if outcome.Lost? then s.stores else s.stores[r := Received(s.stores[r], t.key, t.value, t.sent)],
       tasks := s.tasks[id := if outcome.Replied? then t.(next := t.next + 1) else t.(stage := Failing)])
  }

  function WithStage(s: State, stage: PassStage): State
    requires s.pass.Some?
  {
    s.(pass := Some(s.pass.value.(stage := stage)))
  }

  function NextTarget(s: State): State
    requires s.pass.Some?
  {
    s.(pass := Some(Pass(s.pass.value.targets, s.pass.value.n + 1, Fetching)))
  }

  function ResendStep(s: State, outcome: Outcome): State
    requires AtHand(s) && s.pass.value.stage.Fetched? && TargetAtHand(s).replica in s.stores
  {
    var t, item := TargetAtHand(s), s.pass.value.stage.item;
    var u := if outcome.Lost? then s
             else s.(stores := s.stores[t.replica := Received(s.stores[t.replica], t.key, item.value, item.expiresAt)]);
    if outcome.Replied? then WithStage(u, Forgetting) else NextTarget(u)
  }

  /** A disabled action leaves the state as it is, so every sequence of actions is a run. */
  ghost function Run(h: Host, s: State, actions: seq<Action>): State {
    if actions == [] then s
    else
      var before, a := Run(h, s, actions[..|actions| - 1]), actions[|actions| - 1];
      if Enabled(h, before, a) then Next(h, before, a) else before
  }

  // ---------- What holds of every state ----------

  ghost predicate WellPlaced(h: Host, stores: Stores) {
    && h.node in stores
    && forall k :: Served(h.p, h.node, k) ==> Distinct(h.p.group(k)) && forall n <- h.p.group(k) :: n in stores
  }

  ghost predicate TaskFormed(h: Host, t: Task) {
    && Served(h.p, h.node, t.key) && 1 <= t.next <= |h.p.group(t.key)|
    && (t.stage.Failing? ==> t.next < |h.p.group(t.key)|)
    && (t.stage.Stamping? ==> t.next == 1)
  }

  ghost predicate Formed(h: Host, s: State) {
    && s.clock >= 0 && WellPlaced(h, s.stores) && Tidy(s.pending) && Addressed(s.pending, h.p, h.node)
    && (forall id <- s.tasks :: TaskFormed(h, s.tasks[id]))
    && (s.pass.Some? ==> TargetsFormed(h, s.pass.value.targets))
  }

  ghost predicate TargetsFormed(h: Host, targets: seq<Target>) {
    forall x :: 0 <= x < |targets| ==>
      Served(h.p, h.node, targets[x].key) && IsReplica(h.p.group(targets[x].key), targets[x].replica)
  }

  lemma StepKeepsStores(h: Host, s: State, a: Action)
    requires Enabled(h, s, a)
    ensures Next(h, s, a).stores.Keys == s.stores.Keys && Next(h, s, a).clock >= s.clock
  {
  }

  lemma StepKeepsTable(h: Host, s: State, a: Action)
    requires Formed(h, s) && Enabled(h, s, a)
    ensures Tidy(Next(h, s, a).pending) && Addressed(Next(h, s, a).pending, h.p, h.node)
  {
    var t' := Next(h, s, a).pending;
    if a.Track? {
      var t := s.tasks[a.id];
      TrackedEntries(s.pending, t.key, h.p.group(t.key)[t.next], s.clock);
      assert TaskFormed(h, t) && h.p.group(t.key)[t.next] != h.p.group(t.key)[0];
    } else if a.Forget? {
      ForgottenEntries(s.pending, TargetAtHand(s).key, TargetAtHand(s).replica);
    } else if a.Scan? {
      forall k, r | FirstFail(t', k, r).Some? ensures FirstFail(s.pending, k, r).Some? {}
    }
  }

  /** The task an action starts or moves on. */
  function Mover(a: Action): Option<nat> {
    match a
    case Write(id, _, _, _) => Some(id)
    case Stamp(id) => Some(id)
    case Send(id, _) => Some(id)
    case Track(id) => Some(id)
    case Finish(id) => Some(id)
    case _ => None
  }

  lemma OtherTasksStay(h: Host, s: State, a: Action, id: nat)
    requires Enabled(h, s, a) && id in Next(h, s, a).tasks && Mover(a) != Some(id)
    ensures id in s.tasks && Next(h, s, a).tasks[id] == s.tasks[id]
  {
  }

  lemma OwnTaskFormed(h: Host, s: State, a: Action, id: nat)
    requires Formed(h, s) && Enabled(h, s, a) && id in Next(h, s, a).tasks && Mover(a) == Some(id)
    ensures TaskFormed(h, Next(h, s, a).tasks[id])
  {
    assert id in s.tasks ==> TaskFormed(h, s.tasks[id]);
  }

  lemma StepKeepsTasks(h: Host, s: State, a: Action, id: nat)
    requires Formed(h, s) && Enabled(h, s, a) && id in Next(h, s, a).tasks
    ensures TaskFormed(h, Next(h, s, a).tasks[id])
  {
    if Mover(a) == Some(id) {
      OwnTaskFormed(h, s, a, id);
    } else {
      OtherTasksStay(h, s, a, id);
    }
  }

  lemma StepKeepsTargets(h: Host, s: State, a: Action)
    requires Formed(h, s) && Enabled(h, s, a) && Next(h, s, a).pass.Some?
    ensures TargetsFormed(h, Next(h, s, a).pass.value.targets)
  {
    if a.Scan? {
      forall x | 0 <= x < |a.targets|
        ensures Served(h.p, h.node, a.targets[x].key) && IsReplica(h.p.group(a.targets[x].key), a.targets[x].replica)
      {
        assert Ripe(s.pending, h.limits, s.clock, a.targets[x].key, a.targets[x].replica);
      }
    }
  }

  lemma StepFormed(h: Host, s: State, a: Action)
    requires Formed(h, s) && Enabled(h, s, a)
    ensures Formed(h, Next(h, s, a))
  {
    var t := Next(h, s, a);
    StepKeepsStores(h, s, a);
    StepKeepsTable(h, s, a);
    forall id <- t.tasks ensures TaskFormed(h, t.tasks[id]) {
      StepKeepsTasks(h, s, a, id);
    }
    if t.pass.Some? {
      StepKeepsTargets(h, s, a);
    }
  }

  // ---------- What holds of a key that is not overlapped ----------

  /** At most one write of the key is being replicated, and none while a pass is at it. */
  ghost predicate Alone(s: State, k: string) {
    && (forall i, j :: TaskOf(s, i, k) && TaskOf(s, j, k) ==> i == j)
    && !(Replicating(s, k) && Retrying(s, k))
  }

  /** While it is current, the primary holds this value with this expiry. */
  predicate PrimaryHolds(h: Host, s: State, k: string, value: string, t: Time) {
    h.node in s.stores && k in s.stores[h.node] && Current(s.stores[h.node][k], s.clock) ==>
      s.stores[h.node][k].value == value && s.stores[h.node][k].expiresAt == t
  }

  predicate TaskOk(h: Host, s: State, t: Task) {
    && PrimaryHolds(h, s, t.key, t.value, t.written)
    && (if t.stage.Stamping? then t.written == Deadline(t.stage.ttl, t.stage.at) && 0 <= t.stage.at <= s.clock
        else t.key in s.sent && s.sent[t.key] == t.sent && Spread(t.written, t.sent))
  }

  predicate DueFrom(group: seq<string>, next: nat, r: string) {
    exists j :: next <= j < |group| && group[j] == r
  }

  lemma DueFromNext(group: seq<string>, next: nat, r: string)
    requires next < |group|
    ensures DueFrom(group, next, r) <==> r == group[next] || DueFrom(group, next + 1, r)
  {
  }

  /** Some write of the key has yet to deal with the replica. */
  ghost predicate StillDue(h: Host, s: State, k: string, r: string) {
    exists id :: TaskOf(s, id, k) && DueFrom(h.p.group(k), s.tasks[id].next, r)
  }

  lemma OwnDue(h: Host, s: State, k: string, id: nat, r: string)
    requires TaskOf(s, id, k) && forall i :: TaskOf(s, i, k) ==> i == id
    ensures StillDue(h, s, k, r) <==> DueFrom(h.p.group(k), s.tasks[id].next, r)
  {
  }

  ghost predicate ReplicaOk(h: Host, s: State, k: string, r: string)
    requires h.node in s.stores && r in s.stores
  {
    StillDue(h, s, k, r) || Accounted(h.node, s.stores, s.clock, s.sent, s.pending, s.gaveUp, k, r)
  }

  /** What the pass is about to do to the entry at hand is right. */
  predicate PassOk(h: Host, s: State, k: string) {
    AtHand(s) && TargetAtHand(s).key == k && h.node in s.stores && TargetAtHand(s).replica in s.stores ==>
      match s.pass.value.stage
      case Fetching => true
      case Fetched(item) => PrimaryHolds(h, s, k, item.value, item.expiresAt)
      case Forgetting => Covered(s.stores, s.clock, h.node, s.sent, k, TargetAtHand(s).replica)
  }

  ghost predicate KeyOk(h: Host, s: State, k: string)
    requires WellPlaced(h, s.stores)
  {
    && Alone(s, k) && PassOk(h, s, k)
    && (forall id :: TaskOf(s, id, k) ==> TaskOk(h, s, s.tasks[id]))
    && (Served(h.p, h.node, k) ==> forall r :: IsReplica(h.p.group(k), r) ==> ReplicaOk(h, s, k, r))
  }

  ghost predicate Inv(h: Host, s: State) {
    Formed(h, s) && forall k :: k !in s.overlapped ==> KeyOk(h, s, k)
  }

  // ---------- Steps that do not concern a key ----------

  /** Nothing about the key has changed but, perhaps, that a pass is through with it. */
  ghost predicate Unconcerned(s: State, t: State, k: string) {
    && t.clock == s.clock && t.stores.Keys == s.stores.Keys
    && (forall n <- s.stores :: SameCopy(s.stores[n], t.stores[n], k))
    && (forall id :: TaskOf(s, id, k) <==> TaskOf(t, id, k))
    && (forall id :: TaskOf(s, id, k) ==> t.tasks[id] == s.tasks[id])
    && (k in s.sent <==> k in t.sent) && (k in s.sent ==> t.sent[k] == s.sent[k])
    && (forall r :: FirstFail(s.pending, k, r) == FirstFail(t.pending, k, r))
    && (forall r :: (k, r) in s.gaveUp ==> (k, r) in t.gaveUp)
    && (Retrying(t, k) ==> Retrying(s, k))
    && (AtHand(t) && TargetAtHand(t).key == k ==> t.pass.value.stage.Fetching? || t.pass == s.pass)
  }

  lemma UnconcernedHolds(h: Host, s: State, t: State, k: string, value: string, e: Time)
    requires Unconcerned(s, t, k) && h.node in s.stores
    ensures PrimaryHolds(h, s, k, value, e) <==> PrimaryHolds(h, t, k, value, e)
  {
    assert SameCopy(s.stores[h.node], t.stores[h.node], k);
  }

  lemma UnconcernedCovered(h: Host, s: State, t: State, k: string, r: string)
    requires Unconcerned(s, t, k) && h.node in s.stores && r in s.stores
    ensures Covered(s.stores, s.clock, h.node, s.sent, k, r) <==> Covered(t.stores, t.clock, h.node, t.sent, k, r)
  {
    assert SameCopy(s.stores[h.node], t.stores[h.node], k);
    assert SameCopy(s.stores[r], t.stores[r], k);
  }

  lemma UnconcernedReplicaOk(h: Host, s: State, t: State, k: string, r: string)
    requires Unconcerned(s, t, k) && h.node in s.stores && r in s.stores && ReplicaOk(h, s, k, r)
    ensures ReplicaOk(h, t, k, r)
  {
    if StillDue(h, s, k, r) {
      var id :| TaskOf(s, id, k) && DueFrom(h.p.group(k), s.tasks[id].next, r);
      assert TaskOf(t, id, k) && t.tasks[id] == s.tasks[id];
    } else {
      UnconcernedCovered(h, s, t, k, r);
    }
  }

  lemma UnconcernedAlone(s: State, t: State, k: string)
    requires Unconcerned(s, t, k) && Alone(s, k)
    ensures Alone(t, k)
  {
    if id :| id in t.tasks && t.tasks[id].key == k {
      assert TaskOf(t, id, k) && TaskOf(s, id, k);
    }
    forall i, j | TaskOf(t, i, k) && TaskOf(t, j, k) ensures i == j {
      assert TaskOf(s, i, k) && TaskOf(s, j, k);
    }
  }

  lemma UnconcernedPassOk(h: Host, s: State, t: State, k: string)
    requires Unconcerned(s, t, k) && h.node in s.stores && PassOk(h, s, k)
    ensures PassOk(h, t, k)
  {
    if AtHand(t) && TargetAtHand(t).key == k && TargetAtHand(t).replica in t.stores {
      UnconcernedCovered(h, s, t, k, TargetAtHand(t).replica);
      if t.pass.value.stage.Fetched? {
        UnconcernedHolds(h, s, t, k, t.pass.value.stage.item.value, t.pass.value.stage.item.expiresAt);
      }
    }
  }

  lemma UnconcernedKeyOk(h: Host, s: State, t: State, k: string)
    requires WellPlaced(h, s.stores) && WellPlaced(h, t.stores) && Unconcerned(s, t, k) && KeyOk(h, s, k)
    ensures KeyOk(h, t, k)
  {
    UnconcernedAlone(s, t, k);
    UnconcernedPassOk(h, s, t, k);
    forall id | TaskOf(t, id, k) ensures TaskOk(h, t, t.tasks[id]) {
      assert TaskOf(s, id, k) && TaskOk(h, s, s.tasks[id]);
      UnconcernedHolds(h, s, t, k, t.tasks[id].value, t.tasks[id].written);
    }
    forall r | Served(h.p, h.node, k) && IsReplica(h.p.group(k), r) ensures ReplicaOk(h, t, k, r) {
      UnconcernedReplicaOk(h, s, t, k, r);
    }
  }

  // ---------- Time and sweeps ----------

  lemma ElapseCovered(stores: Stores, node: string, sent: Announced, now: Time, later: Time, swept: set<string>,
                      k: string, r: string)
    requires node in stores && r in stores && now <= later && Covered(stores, now, node, sent, k, r)
    ensures Covered(SweptAll(stores, later, swept), later, node, sent, k, r)
  {
    var after := SweptAll(stores, later, swept);
    if k in after[node] && Current(after[node][k], later) {
      assert stores[node][k] == after[node][k];
      assert Covered(stores, later, node, sent, k, r);
      CoveredIsReadable(stores, later, node, sent, k, r);
    }
  }

  lemma ElapsePrimaryHolds(h: Host, s: State, t: State, later: Time, swept: set<string>, k: string, value: string,
                           e: Time)
    requires s.clock <= later && t == ElapseStep(s, later, swept) && PrimaryHolds(h, s, k, value, e)
    ensures PrimaryHolds(h, t, k, value, e)
  {
  }

  lemma ElapseKeyOk(h: Host, s: State, later: Time, swept: set<string>, k: string)
    requires WellPlaced(h, s.stores) && KeyOk(h, s, k) && s.clock <= later
    ensures var t := ElapseStep(s, later, swept); WellPlaced(h, t.stores) && KeyOk(h, t, k)
  {
    var t := ElapseStep(s, later, swept);
    assert Replicating(t, k) == Replicating(s, k) && Retrying(t, k) == Retrying(s, k);
    forall i ensures TaskOf(t, i, k) == TaskOf(s, i, k) {}
    forall id | TaskOf(t, id, k) ensures TaskOk(h, t, t.tasks[id]) {
      assert TaskOf(s, id, k);
      ElapsePrimaryHolds(h, s, t, later, swept, k, t.tasks[id].value, t.tasks[id].written);
    }
    forall r | Served(h.p, h.node, k) && IsReplica(h.p.group(k), r) ensures ReplicaOk(h, t, k, r) {
      ElapseReplicaOk(h, s, t, later, swept, k, r);
    }
    ElapsePassOk(h, s, t, later, swept, k);
  }

  lemma ElapseReplicaOk(h: Host, s: State, t: State, later: Time, swept: set<string>, k: string, r: string)
    requires s.clock <= later && t == ElapseStep(s, later, swept)
    requires h.node in s.stores && r in s.stores && ReplicaOk(h, s, k, r)
    ensures ReplicaOk(h, t, k, r)
  {
    if StillDue(h, s, k, r) {
      var id :| TaskOf(s, id, k) && DueFrom(h.p.group(k), s.tasks[id].next, r);
      assert TaskOf(t, id, k);
    } else if Covered(s.stores, s.clock, h.node, s.sent, k, r) {
      ElapseCovered(s.stores, h.node, s.sent, s.clock, later, swept, k, r);
    }
  }

  lemma ElapsePassOk(h: Host, s: State, t: State, later: Time, swept: set<string>, k: string)
    requires s.clock <= later && t == ElapseStep(s, later, swept)
    requires h.node in s.stores && PassOk(h, s, k)
    ensures PassOk(h, t, k)
  {
    if AtHand(s) && TargetAtHand(s).key == k && TargetAtHand(s).replica in s.stores {
      match s.pass.value.stage
      case Fetching =>
      case Fetched(item) => ElapsePrimaryHolds(h, s, t, later, swept, k, item.value, item.expiresAt);
      case Forgetting => ElapseCovered(s.stores, h.node, s.sent, s.clock, later, swept, k, TargetAtHand(s).replica);
    }
  }

  // ---------- A write and its replication ----------

  lemma ReplicaDue(group: seq<string>, r: string)
    requires IsReplica(group, r)
    ensures DueFrom(group, 1, r)
  {
    var j :| 0 <= j < |group| && group[j] == r;
  }

  lemma WriteUnconcerned(h: Host, s: State, id: nat, key: string, value: string, ttl: int, k: string)
    requires h.node in s.stores && id !in s.tasks && k != key
    ensures Unconcerned(s, WriteStep(h, s, id, key, value, ttl), k)
  {
  }

  lemma WriteOwn(h: Host, s: State, id: nat, key: string, value: string, ttl: int)
    requires Formed(h, s) && Enabled(h, s, Write(id, key, value, ttl)) && !Replicating(s, key) && !Retrying(s, key)
    ensures var t := WriteStep(h, s, id, key, value, ttl); WellPlaced(h, t.stores) && KeyOk(h, t, key)
  {
    var t := WriteStep(h, s, id, key, value, ttl);
    assert t.stores.Keys == s.stores.Keys;
    forall i ensures TaskOf(t, i, key) <==> i == id {
      if i in s.tasks {
        assert s.tasks[i].key != key;
      }
    }
    assert !Retrying(t, key);
    assert TaskOk(h, t, t.tasks[id]);
    forall r | IsReplica(h.p.group(key), r) ensures ReplicaOk(h, t, key, r) {
      ReplicaDue(h.p.group(key), r);
      assert TaskOf(t, id, key);
    }
  }

  lemma WriteKeyOk(h: Host, s: State, id: nat, key: string, value: string, ttl: int, k: string)
    requires Inv(h, s) && Enabled(h, s, Write(id, key, value, ttl))
    requires k !in WriteStep(h, s, id, key, value, ttl).overlapped && Formed(h, WriteStep(h, s, id, key, value, ttl))
    ensures KeyOk(h, WriteStep(h, s, id, key, value, ttl), k)
  {
    if k != key {
      WriteUnconcerned(h, s, id, key, value, ttl, k);
      UnconcernedKeyOk(h, s, WriteStep(h, s, id, key, value, ttl), k);
    } else {
      WriteOwn(h, s, id, key, value, ttl);
    }
  }

  /** A step of the key's own task keeps the key to itself, and needs to argue about that task and the replicas only. */
  lemma OwnTaskKeyOk(h: Host, s: State, t: State, k: string, id: nat)
    requires Alone(s, k) && TaskOf(s, id, k) && WellPlaced(h, t.stores)
    requires t.tasks.Keys <= s.tasks.Keys && (forall i <- t.tasks :: t.tasks[i].key == s.tasks[i].key)
             && t.pass == s.pass
    requires id in t.tasks ==> TaskOk(h, t, t.tasks[id])
    requires Served(h.p, h.node, k) ==> forall r :: IsReplica(h.p.group(k), r) ==> ReplicaOk(h, t, k, r)
    ensures KeyOk(h, t, k)
  {
    assert Replicating(s, k);
    assert !Retrying(t, k);
    forall i | TaskOf(t, i, k) ensures i == id {
      assert TaskOf(s, i, k);
    }
  }

  lemma OnlyTask(s: State, t: State, k: string, id: nat)
    requires Alone(s, k) && TaskOf(s, id, k)
    requires t.tasks.Keys == s.tasks.Keys && forall i <- t.tasks :: t.tasks[i].key == s.tasks[i].key
    ensures forall i :: TaskOf(s, i, k) ==> i == id
    ensures TaskOf(t, id, k) && forall i :: TaskOf(t, i, k) ==> i == id
  {
    forall i | TaskOf(t, i, k) ensures i == id {
      assert TaskOf(s, i, k);
    }
  }

  lemma StampKeyOk(h: Host, s: State, id: nat, k: string)
    requires Inv(h, s) && Enabled(h, s, Stamp(id))
    requires k !in s.overlapped && Formed(h, Next(h, s, Stamp(id)))
    ensures KeyOk(h, Next(h, s, Stamp(id)), k)
  {
    var t, task := Next(h, s, Stamp(id)), s.tasks[id];
    if k != task.key {
      StampUnconcerned(h, s, id, k);
      UnconcernedKeyOk(h, s, t, k);
    } else {
      assert TaskOf(s, id, k) && TaskOk(h, s, task) && TaskFormed(h, task);
      DeadlineSpreads(task.stage.ttl, task.stage.at, s.clock);
      OnlyTask(s, t, k, id);
      forall r | IsReplica(h.p.group(k), r) ensures ReplicaOk(h, t, k, r) {
        ReplicaDue(h.p.group(k), r);
      }
      OwnTaskKeyOk(h, s, t, k, id);
    }
  }

  lemma StampUnconcerned(h: Host, s: State, id: nat, k: string)
    requires Enabled(h, s, Stamp(id)) && k != s.tasks[id].key
    ensures Unconcerned(s, Next(h, s, Stamp(id)), k)
  {
  }

  lemma SendUnconcerned(h: Host, s: State, id: nat, outcome: Outcome, k: string)
    requires Enabled(h, s, Send(id, outcome)) && k != s.tasks[id].key
    ensures Unconcerned(s, SendNext(h, s, id, outcome), k)
  {
  }

  lemma SendKeyOk(h: Host, s: State, id: nat, outcome: Outcome, k: string)
    requires Inv(h, s) && Enabled(h, s, Send(id, outcome))
    requires k !in s.overlapped && Formed(h, SendNext(h, s, id, outcome))
    ensures KeyOk(h, SendNext(h, s, id, outcome), k)
  {
    var t, task := SendNext(h, s, id, outcome), s.tasks[id];
    if k != task.key {
      SendUnconcerned(h, s, id, outcome, k);
      UnconcernedKeyOk(h, s, t, k);
    } else {
      assert TaskOf(s, id, k) && TaskOk(h, s, task) && TaskFormed(h, task);
      forall r | IsReplica(h.p.group(k), r) ensures ReplicaOk(h, t, k, r) {
        SendReplicaOk(h, s, id, outcome, r);
      }
      assert h.p.group(k)[task.next] != h.node;
      assert TaskOk(h, t, t.tasks[id]);
      OwnTaskKeyOk(h, s, t, k, id);
    }
  }

  lemma SendReplicaOk(h: Host, s: State, id: nat, outcome: Outcome, r: string)
    requires Formed(h, s) && Enabled(h, s, Send(id, outcome)) && Alone(s, s.tasks[id].key) && TaskOk(h, s, s.tasks[id])
    requires IsReplica(h.p.group(s.tasks[id].key), r) && r in s.stores && ReplicaOk(h, s, s.tasks[id].key, r)
    ensures ReplicaOk(h, SendNext(h, s, id, outcome), s.tasks[id].key, r)
  {
    var t, task := SendNext(h, s, id, outcome), s.tasks[id];
    var k, to := task.key, h.p.group(task.key)[task.next];
    assert TaskFormed(h, task) && TaskOf(s, id, k);
    OnlyTask(s, t, k, id);
    OwnDue(h, s, k, id, r);
    OwnDue(h, t, k, id, r);
    DueFromNext(h.p.group(k), task.next, r);
    assert to != h.node && t.stores[h.node] == s.stores[h.node];
    if r == to {
      if outcome.Replied? {
        assert Covered(t.stores, t.clock, h.node, t.sent, k, r);
      }
    } else {
      assert t.stores[r] == s.stores[r];
    }
  }

  lemma TrackUnconcerned(h: Host, s: State, id: nat, k: string)
    requires Formed(h, s) && Enabled(h, s, Track(id)) && k != s.tasks[id].key
    ensures Unconcerned(s, Next(h, s, Track(id)), k)
  {
    TrackedEntries(s.pending, s.tasks[id].key, h.p.group(s.tasks[id].key)[s.tasks[id].next], s.clock);
  }

  lemma TrackKeyOk(h: Host, s: State, id: nat, k: string)
    requires Inv(h, s) && Enabled(h, s, Track(id))
    requires k !in s.overlapped && Formed(h, Next(h, s, Track(id)))
    ensures KeyOk(h, Next(h, s, Track(id)), k)
  {
    var t, task := Next(h, s, Track(id)), s.tasks[id];
    if k != task.key {
      TrackUnconcerned(h, s, id, k);
      UnconcernedKeyOk(h, s, t, k);
    } else {
      assert TaskOf(s, id, k) && TaskOk(h, s, task) && TaskFormed(h, task);
      forall r | IsReplica(h.p.group(k), r) ensures ReplicaOk(h, t, k, r) {
        TrackReplicaOk(h, s, id, r);
      }
      OwnTaskKeyOk(h, s, t, k, id);
    }
  }

  lemma TrackReplicaOk(h: Host, s: State, id: nat, r: string)
    requires Formed(h, s) && Enabled(h, s, Track(id)) && Alone(s, s.tasks[id].key)
    requires IsReplica(h.p.group(s.tasks[id].key), r) && r in s.stores && ReplicaOk(h, s, s.tasks[id].key, r)
    ensures ReplicaOk(h, Next(h, s, Track(id)), s.tasks[id].key, r)
  {
    var t, task := Next(h, s, Track(id)), s.tasks[id];
    var k := task.key;
    TrackedEntries(s.pending, k, h.p.group(k)[task.next], s.clock);
    assert TaskOf(s, id, k);
    OnlyTask(s, t, k, id);
    OwnDue(h, s, k, id, r);
    OwnDue(h, t, k, id, r);
    DueFromNext(h.p.group(k), task.next, r);
  }

  lemma FinishUnconcerned(h: Host, s: State, id: nat, k: string)
    requires Enabled(h, s, Finish(id)) && k != s.tasks[id].key
    ensures Unconcerned(s, Next(h, s, Finish(id)), k)
  {
  }

  lemma FinishKeyOk(h: Host, s: State, id: nat, k: string)
    requires Inv(h, s) && Enabled(h, s, Finish(id))
    requires k !in s.overlapped && Formed(h, Next(h, s, Finish(id)))
    ensures KeyOk(h, Next(h, s, Finish(id)), k)
  {
    var t, task := Next(h, s, Finish(id)), s.tasks[id];
    if k != task.key {
      FinishUnconcerned(h, s, id, k);
      UnconcernedKeyOk(h, s, t, k);
    } else {
      assert TaskOf(s, id, k);
      OnlyTask(s, s, k, id);
      forall r | IsReplica(h.p.group(k), r) ensures ReplicaOk(h, t, k, r) {
        assert ReplicaOk(h, s, k, r);
        OwnDue(h, s, k, id, r);
      }
      OwnTaskKeyOk(h, s, t, k, id);
    }
  }

  // ---------- A retry pass ----------

  lemma ScanKeyOk(h: Host, s: State, targets: seq<Target>, pruned: Table, k: string)
    requires Inv(h, s) && Enabled(h, s, Scan(targets, pruned))
    requires k !in Next(h, s, Scan(targets, pruned)).overlapped && Formed(h, Next(h, s, Scan(targets, pruned)))
    ensures KeyOk(h, Next(h, s, Scan(targets, pruned)), k)
  {
    var t := Next(h, s, Scan(targets, pruned));
    assert k !in s.overlapped && KeyOk(h, s, k);
    if Retrying(t, k) {
      var x :| 0 <= x < |targets| && targets[x].key == k;
      assert targets[x] in targets;
      assert !Replicating(s, k);
    }
    forall i ensures TaskOf(t, i, k) == TaskOf(s, i, k) {}
    assert Replicating(t, k) == Replicating(s, k);
    forall id | TaskOf(t, id, k) ensures TaskOk(h, t, t.tasks[id]) {
      assert TaskOk(h, s, s.tasks[id]);
    }
    forall r | Served(h.p, h.node, k) && IsReplica(h.p.group(k), r) ensures ReplicaOk(h, t, k, r) {
      ScanReplicaOk(h, s, targets, pruned, k, r);
    }
  }

  lemma ScanReplicaOk(h: Host, s: State, targets: seq<Target>, pruned: Table, k: string, r: string)
    requires Enabled(h, s, Scan(targets, pruned)) && h.node in s.stores && r in s.stores && ReplicaOk(h, s, k, r)
    ensures ReplicaOk(h, Next(h, s, Scan(targets, pruned)), k, r)
  {
    var t := Next(h, s, Scan(targets, pruned));
    if StillDue(h, s, k, r) {
      var id :| TaskOf(s, id, k) && DueFrom(h.p.group(k), s.tasks[id].next, r);
      assert TaskOf(t, id, k);
    } else if FirstFail(s.pending, k, r).Some? && Old(s.pending, h.limits, s.clock, k, r) {
      assert (k, r) in GivenUp(s.pending, h.limits, s.clock);
    }
  }

  /** A step of the pass at the key's own target: no write of the key is being replicated. */
  lemma OwnTargetKeyOk(h: Host, s: State, t: State, k: string)
    requires AtHand(s) && TargetAtHand(s).key == k && Alone(s, k)
    requires t.tasks == s.tasks && WellPlaced(h, t.stores) && PassOk(h, t, k)
    requires Served(h.p, h.node, k) ==> forall r :: IsReplica(h.p.group(k), r) ==> ReplicaOk(h, t, k, r)
    ensures KeyOk(h, t, k)
  {
    assert Retrying(s, k);
    forall i ensures !TaskOf(t, i, k) {
      assert TaskOf(s, i, k) ==> Replicating(s, k);
    }
    assert !Replicating(t, k) by {
      if id :| id in t.tasks && t.tasks[id].key == k {
        assert TaskOf(t, id, k);
      }
    }
  }

  lemma SameReplicaOk(h: Host, s: State, t: State, k: string, r: string)
    requires h.node in s.stores && r in s.stores && ReplicaOk(h, s, k, r)
    requires t.tasks == s.tasks && t.stores.Keys == s.stores.Keys && t.clock == s.clock && t.sent == s.sent
    requires SameCopy(s.stores[h.node], t.stores[h.node], k) && SameCopy(s.stores[r], t.stores[r], k)
    requires FirstFail(t.pending, k, r) == FirstFail(s.pending, k, r) && ((k, r) in s.gaveUp ==> (k, r) in t.gaveUp)
    ensures ReplicaOk(h, t, k, r)
  {
    if StillDue(h, s, k, r) {
      var id :| TaskOf(s, id, k) && DueFrom(h.p.group(k), s.tasks[id].next, r);
      assert TaskOf(t, id, k);
    }
  }

  lemma FetchKeyOk(h: Host, s: State, k: string)
    requires Inv(h, s) && Enabled(h, s, Action.Fetch) && k !in s.overlapped && Formed(h, Next(h, s, Action.Fetch))
    ensures KeyOk(h, Next(h, s, Action.Fetch), k)
  {
    var t := Next(h, s, Action.Fetch);
    assert KeyOk(h, s, k);
    if k != TargetAtHand(s).key {
      assert Unconcerned(s, t, k);
      UnconcernedKeyOk(h, s, t, k);
    } else {
      forall r | Served(h.p, h.node, k) && IsReplica(h.p.group(k), r) ensures ReplicaOk(h, t, k, r) {
        SameReplicaOk(h, s, t, k, r);
      }
      assert PassOk(h, t, k);
      OwnTargetKeyOk(h, s, t, k);
    }
  }

  lemma ResendUnconcerned(h: Host, s: State, outcome: Outcome, k: string)
    requires Enabled(h, s, Resend(outcome)) && k != TargetAtHand(s).key
    ensures Unconcerned(s, ResendStep(s, outcome), k)
  {
  }

  lemma ResendCovers(h: Host, s: State, outcome: Outcome)
    requires Formed(h, s) && Enabled(h, s, Resend(outcome)) && PassOk(h, s, TargetAtHand(s).key) && !outcome.Lost?
    ensures var t, x := ResendStep(s, outcome), TargetAtHand(s);
            && t.stores.Keys == s.stores.Keys && t.stores[h.node] == s.stores[h.node]
            && Covered(t.stores, t.clock, h.node, t.sent, x.key, x.replica)
  {
    var x := TargetAtHand(s);
    assert Served(h.p, h.node, x.key) && IsReplica(h.p.group(x.key), x.replica);
    assert x.replica != h.node;
  }

  lemma ResendKeyOk(h: Host, s: State, outcome: Outcome, k: string)
    requires Inv(h, s) && Enabled(h, s, Resend(outcome)) && k !in s.overlapped && Formed(h, ResendStep(s, outcome))
    ensures KeyOk(h, ResendStep(s, outcome), k)
  {
    var t := ResendStep(s, outcome);
    assert KeyOk(h, s, k);
    if k != TargetAtHand(s).key {
      ResendUnconcerned(h, s, outcome, k);
      UnconcernedKeyOk(h, s, t, k);
    } else {
      if !outcome.Lost? {
        ResendCovers(h, s, outcome);
      }
      forall r | Served(h.p, h.node, k) && IsReplica(h.p.group(k), r) ensures ReplicaOk(h, t, k, r) {
        if r != TargetAtHand(s).replica || outcome.Lost? {
          SameReplicaOk(h, s, t, k, r);
        }
      }
      assert PassOk(h, t, k);
      OwnTargetKeyOk(h, s, t, k);
    }
  }

  lemma ForgetKeyOk(h: Host, s: State, k: string)
    requires Inv(h, s) && Enabled(h, s, Forget) && k !in s.overlapped && Formed(h, Next(h, s, Forget))
    ensures KeyOk(h, Next(h, s, Forget), k)
  {
    var t, x := Next(h, s, Forget), TargetAtHand(s);
    ForgottenEntries(s.pending, x.key, x.replica);
    assert KeyOk(h, s, k);
    if k != x.key {
      assert Unconcerned(s, t, k);
      UnconcernedKeyOk(h, s, t, k);
    } else {
      assert Served(h.p, h.node, k) && IsReplica(h.p.group(k), x.replica);
      forall r | IsReplica(h.p.group(k), r) ensures ReplicaOk(h, t, k, r) {
        if r != x.replica {
          SameReplicaOk(h, s, t, k, r);
        }
      }
      OwnTargetKeyOk(h, s, t, k);
    }
  }

  lemma EndPassKeyOk(h: Host, s: State, k: string)
    requires Inv(h, s) && Enabled(h, s, EndPass) && k !in s.overlapped && Formed(h, Next(h, s, EndPass))
    ensures KeyOk(h, Next(h, s, EndPass), k)
  {
    assert Unconcerned(s, Next(h, s, EndPass), k);
    UnconcernedKeyOk(h, s, Next(h, s, EndPass), k);
  }

  // ---------- Runs ----------

  lemma TaskStepKeyOk(h: Host, s: State, a: Action, k: string)
    requires Inv(h, s) && Enabled(h, s, a) && Formed(h, Next(h, s, a)) && k !in Next(h, s, a).overlapped
    requires a.Write? || k !in s.overlapped
    requires a.Write? || a.Stamp? || a.Send? || a.Track? || a.Finish?
    ensures KeyOk(h, Next(h, s, a), k)
  {
    match a
    case Write(id, key, value, ttl) => WriteKeyOk(h, s, id, key, value, ttl, k);
    case Stamp(id) => StampKeyOk(h, s, id, k);
    case Send(id, outcome) => SendKeyOk(h, s, id, outcome, k);
    case Track(id) => TrackKeyOk(h, s, id, k);
    case Finish(id) => FinishKeyOk(h, s, id, k);
  }

  lemma PassStepKeyOk(h: Host, s: State, a: Action, k: string)
    requires Inv(h, s) && Enabled(h, s, a) && Formed(h, Next(h, s, a))
    requires k !in s.overlapped && k !in Next(h, s, a).overlapped
    requires a.Scan? || a.Fetch? || a.Resend? || a.Forget? || a.EndPass?
    ensures KeyOk(h, Next(h, s, a), k)
  {
    match a
    case Scan(targets, pruned) => ScanKeyOk(h, s, targets, pruned, k);
    case Fetch => FetchKeyOk(h, s, k);
    case Resend(outcome) => ResendKeyOk(h, s, outcome, k);
    case Forget => ForgetKeyOk(h, s, k);
    case EndPass => EndPassKeyOk(h, s, k);
  }

  /** Only a write takes a key off the overlapped ones. */
  lemma OverlapStays(h: Host, s: State, a: Action, k: string)
    requires Enabled(h, s, a) && !a.Write? && k in s.overlapped
    ensures k in Next(h, s, a).overlapped
  {
  }

  lemma StepKeyOk(h: Host, s: State, a: Action, k: string)
    requires Inv(h, s) && Enabled(h, s, a) && Formed(h, Next(h, s, a)) && k !in Next(h, s, a).overlapped
    ensures KeyOk(h, Next(h, s, a), k)
  {
    if !a.Write? && k in s.overlapped {
      OverlapStays(h, s, a, k);
    }
    if a.Elapse? {
      ElapseKeyOk(h, s, a.later, a.swept, k);
    } else if Mover(a).Some? {
      TaskStepKeyOk(h, s, a, k);
    } else {
      PassStepKeyOk(h, s, a, k);
    }
  }

  /** A server that has just started: an empty store, and nothing in flight. */
  ghost predicate Started(h: Host, s: State) {
    && s.clock >= 0 && WellPlaced(h, s.stores) && s.stores[h.node] == map[]
    && s.pending == map[] && s.gaveUp == {} && s.sent == map[] && s.tasks == map[] && s.pass == None
       && s.overlapped == {}
  }

  lemma {:induction false} RunKeepsInv(h: Host, s: State, actions: seq<Action>)
    requires Started(h, s)
    ensures Inv(h, Run(h, s, actions))
  {
    if actions != [] {
      var init, a := actions[..|actions| - 1], actions[|actions| - 1];
      RunKeepsInv(h, s, init);
      var before := Run(h, s, init);
      if Enabled(h, before, a) {
        StepFormed(h, before, a);
        forall k | k !in Next(h, before, a).overlapped ensures KeyOk(h, Next(h, before, a), k) {
          StepKeyOk(h, before, a, k);
        }
      }
    }
  }

  /**
    Replicated, listed or given up: in every run, whatever is in flight for other keys and whatever
    happened before, a key that has not overlapped since its last lone write and has no write in flight
    is accounted for at each of its replicas.
   */
  lemma RunsAccount(h: Host, s: State, actions: seq<Action>, k: string, r: string)
    requires Started(h, s) && Served(h.p, h.node, k) && IsReplica(h.p.group(k), r)
    requires var t := Run(h, s, actions); k !in t.overlapped && !Replicating(t, k)
    ensures var t := Run(h, s, actions);
            && h.node in t.stores && r in t.stores
            && Accounted(h.node, t.stores, t.clock, t.sent, t.pending, t.gaveUp, k, r)
  {
    var t := Run(h, s, actions);
    RunKeepsInv(h, s, actions);
    assert ReplicaOk(h, t, k, r);
    assert forall id :: !TaskOf(t, id, k);
  }

  /**
    A write settles whether its key is overlapped: exactly if it begins while something of the key is in
    flight. Apart from that a key comes to overlap exactly when a pass picks it up during a write.
   */
  lemma OverlapsIff(h: Host, s: State, a: Action, k: string)
    requires Enabled(h, s, a)
    ensures k in Next(h, s, a).overlapped
            <==> if a.Write? && a.key == k then Replicating(s, k) || Retrying(s, k)
                 else || k in s.overlapped
                      || (a.Scan? && Replicating(s, k) && k in s.pending
                          && exists r <- s.pending[k] ::
                               h.limits.retryInterval <= s.clock - s.pending[k][r] < h.limits.maxPendingAge)
  {
    if a.Scan? {
      ScanOverlapsIff(h, s, a.targets, a.pruned, k);
    }
  }

  lemma ScanOverlapsIff(h: Host, s: State, targets: seq<Target>, pruned: Table, k: string)
    requires Enabled(h, s, Scan(targets, pruned))
    ensures (exists t <- targets :: t.key == k)
            <==> k in s.pending && exists r <- s.pending[k] ::
                   h.limits.retryInterval <= s.clock - s.pending[k][r] < h.limits.maxPendingAge
  {
    if x :| x in targets && x.key == k {
      var i :| 0 <= i < |targets| && targets[i] == x;
      assert Ripe(s.pending, h.limits, s.clock, targets[i].key, targets[i].replica);
    }
    if k in s.pending {
      if r :| r in s.pending[k] && h.limits.retryInterval <= s.clock - s.pending[k][r] < h.limits.maxPendingAge {
        assert (k, r) in Entries(s.pending) && Ripe(s.pending, h.limits, s.clock, k, r);
        var i :| 0 <= i < |targets| && targets[i].key == k && targets[i].replica == r;
        assert targets[i] in targets;
      }
    }
  }

  /**
    No step changes the first failure time of an entry that stays, leaves an empty inner map, or drops an entry
    but by age or a resolved retry.
   */
  lemma StepKeepsTimes(h: Host, s: State, a: Action, k: string, r: string)
    requires Formed(h, s) && Enabled(h, s, a) && FirstFail(s.pending, k, r).Some?
    ensures Tidy(Next(h, s, a).pending)
    ensures var after := FirstFail(Next(h, s, a).pending, k, r);
            && (after.Some? ==> after == FirstFail(s.pending, k, r))
            && (after.None? <==> (a.Scan? && s.clock - s.pending[k][r] >= h.limits.maxPendingAge)
                                 || (a.Forget? && TargetAtHand(s).key == k && TargetAtHand(s).replica == r))
    ensures (k, r) in Next(h, s, a).gaveUp
            <==> ((k, r) in s.gaveUp && !(a.Write? && a.key == k))
                 || (a.Scan? && s.clock - s.pending[k][r] >= h.limits.maxPendingAge)
  {
    StepKeepsTable(h, s, a);
    if a.Track? {
      var t := s.tasks[a.id];
      TrackedEntries(s.pending, t.key, h.p.group(t.key)[t.next], s.clock);
    } else if a.Forget? {
      ForgottenEntries(s.pending, TargetAtHand(s).key, TargetAtHand(s).replica);
    } else if a.Scan? {
      assert (k, r) in Entries(s.pending);
    }
  }

  // ---------- The quiet schedule ----------

  ghost predicate RunsTo(h: Host, s: State, t: State) {
    exists actions :: Run(h, s, actions) == t
  }

  lemma RunsToStep(h: Host, s: State, t: State, a: Action)
    requires RunsTo(h, s, t) && Enabled(h, t, a)
    ensures RunsTo(h, s, Next(h, t, a))
  {
    var actions :| Run(h, s, actions) == t;
    assert (actions + [a])[..|actions|] == actions;
    assert Run(h, s, actions + [a]) == Next(h, t, a);
  }

  lemma RunsToSelf(h: Host, s: State)
    ensures RunsTo(h, s, s)
  {
    assert Run(h, s, []) == s;
  }

  /** The state after the sends to the members before `i`. */
  ghost predicate SentUpTo(s: State, t: State, group: seq<string>, id: nat, task: Task, i: nat,
                           outcome: string -> Outcome)
    requires i <= |group|
  {
    && SentTo(s.stores, t.stores, group, i, outcome, task.key, task.value, task.sent)
    && FailedTo(s.pending, t.pending, group, i, outcome, task.key, s.clock) && Tidy(t.pending)
    && t.tasks == s.tasks[id := task.(next := i)] && t.clock == s.clock && t.sent == s.sent && t.gaveUp == s.gaveUp
  }

  lemma SentUpToStart(s: State, group: seq<string>, id: nat, task: Task, outcome: string -> Outcome)
    requires group != [] && Tidy(s.pending) && id in s.tasks && s.tasks[id] == task && task.next == 1
    ensures SentUpTo(s, s, group, id, task, 1, outcome)
  {
    assert s.tasks[id := task] == s.tasks;
    assert forall n :: !Reached(group, 1, n);
  }

  lemma SentUpToNext(s: State, t: State, v: State, group: seq<string>, id: nat, task: Task, i: nat,
                     outcome: string -> Outcome)
    requires Distinct(group) && 1 <= i < |group| && group[i] in t.stores && SentUpTo(s, t, group, id, task, i, outcome)
    requires v.stores == if outcome(group[i]).Lost? then t.stores
                         else t.stores[group[i] := Received(t.stores[group[i]], task.key, task.value, task.sent)]
    requires v.pending == if outcome(group[i]).Replied? then t.pending
             else Tracked(t.pending, task.key, group[i], t.clock)
    requires v.tasks == t.tasks[id := task.(next := i + 1)] && v.clock == t.clock && v.sent == t.sent
             && v.gaveUp == t.gaveUp
    ensures SentUpTo(s, v, group, id, task, i + 1, outcome)
  {
    Replication.SendStep(s.stores, t.stores, group, i, outcome, task.key, task.value, task.sent);
    FailStep(s.pending, t.pending, group, i, outcome, task.key, s.clock);
  }

  /** One send, and the record of its failure. */
  lemma SendAndTrack(h: Host, s0: State, t: State, id: nat, o: Outcome) returns (v: State)
    requires RunsTo(h, s0, t) && id in t.tasks && t.tasks[id].stage.Sending? && Turn(h, t, id)
    ensures RunsTo(h, s0, v)
    ensures var x := t.tasks[id]; var r := h.p.group(x.key)[x.next];
            && v.stores == (if o.Lost? then t.stores else t.stores[r := Received(t.stores[r], x.key, x.value, x.sent)])
            && v.pending == (if o.Replied? then t.pending else Tracked(t.pending, x.key, r, t.clock))
            && v.tasks == t.tasks[id := x.(next := x.next + 1)] && v.clock == t.clock && v.sent == t.sent
               && v.gaveUp == t.gaveUp
  {
    RunsToStep(h, s0, t, Send(id, o));
    v := SendNext(h, t, id, o);
    if !o.Replied? {
      RunsToStep(h, s0, v, Track(id));
      v := Next(h, v, Track(id));
    }
  }

  lemma SendOne(h: Host, s0: State, s: State, t: State, group: seq<string>, id: nat, task: Task, i: nat,
                outcome: string -> Outcome)
    returns (v: State)
    requires group == h.p.group(task.key) && 1 <= i < |group| && Distinct(group) && group[i] in t.stores
    requires RunsTo(h, s0, t) && SentUpTo(s, t, group, id, task, i, outcome) && task.stage.Sending?
    ensures RunsTo(h, s0, v) && SentUpTo(s, v, group, id, task, i + 1, outcome)
  {
    v := SendAndTrack(h, s0, t, id, outcome(group[i]));
    SentUpToNext(s, t, v, group, id, task, i, outcome);
  }

  lemma {:induction false} SendAll(h: Host, s0: State, s: State, group: seq<string>, id: nat, task: Task, i: nat,
                                   outcome: string -> Outcome)
    returns (t: State)
    requires RunsTo(h, s0, s) && id in s.tasks && s.tasks[id] == task && task.stage.Sending? && task.next == 1
    requires group == h.p.group(task.key) && 1 <= i <= |group| && Distinct(group) && Tidy(s.pending)
    requires forall j :: 0 <= j < |group| ==> group[j] in s.stores
    ensures RunsTo(h, s0, t) && SentUpTo(s, t, group, id, task, i, outcome)
  {
    if i == 1 {
      SentUpToStart(s, group, id, task, outcome);
      t := s;
    } else {
      t := SendAll(h, s0, s, group, id, task, i - 1, outcome);
      t := SendOne(h, s0, s, t, group, id, task, i - 1, outcome);
    }
  }

  /** The write, the second clock reading, and the start of the replication. */
  lemma Begin(h: Host, s: State, id: nat, key: string, value: string, ttl: int, later: Time) returns (t: State)
    requires WellPlaced(h, s.stores) && Served(h.p, h.node, key) && id !in s.tasks && s.clock <= later
    ensures RunsTo(h, s, t)
    ensures var e, u := Deadline(ttl, s.clock), Deadline(ttl, later);
            && t.stores == s.stores[h.node := Written(s.stores[h.node], key, value, e)] && t.clock == later
               && t.pending == s.pending
            && t.tasks == s.tasks[id := Task(key, value, e, u, 1, Sending)] && t.sent == s.sent[key := u]
            && t.gaveUp == s.gaveUp - AllPairs(s.gaveUp, key)
  {
    RunsToSelf(h, s);
    RunsToStep(h, s, s, Write(id, key, value, ttl));
    t := WriteStep(h, s, id, key, value, ttl);
    assert SweptAll(t.stores, later, {}) == t.stores;
    RunsToStep(h, s, t, Elapse(later, {}));
    t := ElapseStep(t, later, {});
    RunsToStep(h, s, t, Stamp(id));
    t := Next(h, t, Stamp(id));
  }

  /** A write replicated with nothing in between is a run, with exactly the effect that `Primary.ServeSet` promises. */
  lemma QuietServe(h: Host, s: State, id: nat, key: string, value: string, ttl: int, later: Time,
                   outcome: string -> Outcome)
    returns (t: State)
    requires WellPlaced(h, s.stores) && Tidy(s.pending) && Served(h.p, h.node, key) && id !in s.tasks
             && s.clock <= later
    ensures RunsTo(h, s, t)
    ensures var group := h.p.group(key);
            && SentTo(s.stores[h.node := Written(s.stores[h.node], key, value, Deadline(ttl, s.clock))], t.stores,
                      group, |group|, outcome, key, value, Deadline(ttl, later))
            && FailedTo(s.pending, t.pending, group, |group|, outcome, key, later)
            && t.gaveUp == s.gaveUp - AllPairs(s.gaveUp, key) && t.sent == s.sent[key := Deadline(ttl, later)]
            && t.clock == later && t.tasks == s.tasks
  {
    var group := h.p.group(key);
    var begun := Begin(h, s, id, key, value, ttl, later);
    assert forall j :: 0 <= j < |group| ==> group[j] in group;
    t := SendAll(h, s, begun, group, id, begun.tasks[id], |group|, outcome);
    RunsToStep(h, s, t, Finish(id));
    assert t.tasks - {id} == s.tasks;
    t := Next(h, t, Finish(id));
  }

  // ---------- The quiet pass ----------

  /** There is always a scan: one pair of the table after the other. */
  lemma {:induction false} ScanExists(t: Table, limits: Limits, now: Time, seen: set<(string, string)>)
    returns (pruned: Table, targets: seq<Target>)
    requires Tidy(t) && seen <= Entries(t)
    ensures Tidy(pruned) && Pruned(t, pruned, limits, now, seen) && Collected(t, limits, now, seen, targets)
  {
    if seen == {} {
      pruned, targets := t, [];
    } else {
      var e :| e in seen;
      var rest := seen - {e};
      assert rest + {(e.0, e.1)} == seen && (e.0, e.1) !in rest && e in Entries(t);
      pruned, targets := ScanExists(t, limits, now, rest);
      PruneStep(t, pruned, limits, now, rest, e.0, e.1);
      CollectStep(t, limits, now, rest, targets, e.0, e.1, t[e.0][e.1]);
      if Old(t, limits, now, e.0, e.1) {
        pruned := Forgotten(pruned, e.0, e.1);
      }
      if Ripe(t, limits, now, e.0, e.1) {
        targets := targets + [Target(e.0, e.1, t[e.0][e.1])];
      }
    }
  }

  /** The pass has target `n` at hand; apart from the table and the stores `t` is like `s`. */
  predicate AtTarget(s: State, t: State, targets: seq<Target>, n: nat) {
    && t.pass == Some(Pass(targets, n, Fetching))
    && t.clock == s.clock && t.sent == s.sent && t.tasks == s.tasks && t.gaveUp == s.gaveUp
  }

  /** One target from the fetch on; `o` is what happens to the call, if there is one. */
  lemma RetryOne(h: Host, s0: State, s: State, t: State, targets: seq<Target>, n: nat, o: Outcome) returns (v: State)
    requires RunsTo(h, s0, t) && AtTarget(s, t, targets, n) && n < |targets|
    requires h.node in t.stores && targets[n].replica in t.stores
    ensures RunsTo(h, s0, v) && AtTarget(s, v, targets, n + 1)
    ensures var k, r := targets[n].key, targets[n].replica; var held := Live(t.stores[h.node], k, t.clock);
            && v.pending == (if !held || o.Replied? then Forgotten(t.pending, k, r) else t.pending)
            && v.stores == if held && !o.Lost? then t.stores[r := Resent(t.stores, t.stores[h.node], k, r)]
                           else t.stores
  {
    RunsToStep(h, s0, t, Fetch);
    v := Next(h, t, Fetch);
    if v.pass.value.stage.Fetched? {
      RunsToStep(h, s0, v, Resend(o));
      v := ResendStep(v, o);
    }
    if v.pass.value.stage.Forgetting? {
      RunsToStep(h, s0, v, Forget);
      v := Next(h, v, Forget);
    }
  }

  /** The table and the stores after the first `n` targets. */
  ghost predicate RetriedUpTo(s: State, t: State, items: Items, deliver: (string, string) -> Outcome,
                              targets: seq<Target>, n: nat)
    requires n <= |targets|
  {
    && AtTarget(s, t, targets, n) && Tidy(t.pending)
    && Cleared(s.pending, t.pending, items, s.clock, deliver, targets, n)
    && Delivered(s.stores, t.stores, items, s.clock, deliver, targets, n)
  }

  /** Each target names a replica of a key served here, and no pair occurs twice. */
  ghost predicate Aimed(h: Host, stores: Stores, targets: seq<Target>) {
    && WellPlaced(h, stores) && TargetsFormed(h, targets)
    && forall i, j :: 0 <= i < j < |targets| ==> EntryOf(targets[i]) != EntryOf(targets[j])
  }

  /** The primary's own copies are as before, and no pair has been sent before. */
  lemma OwnCopyStays(h: Host, s: State, t: State, deliver: (string, string) -> Outcome, targets: seq<Target>, n: nat)
    requires Aimed(h, s.stores, targets) && n < |targets|
    requires Delivered(s.stores, t.stores, s.stores[h.node], s.clock, deliver, targets, n)
    ensures h.node in t.stores && SameCopy(s.stores[h.node], t.stores[h.node], targets[n].key)
    ensures targets[n].replica in t.stores && !Among(targets, n, targets[n].key, targets[n].replica)
  {
    var k := targets[n].key;
    assert CopyAfter(s.stores[h.node], t.stores[h.node], s.stores[h.node], k,
                     Arrived(s.stores[h.node], s.clock, deliver, targets, n, k, h.node));
    forall i | 0 <= i < n
      ensures !(targets[i].key == k && (targets[i].replica == h.node || targets[i].replica == targets[n].replica))
    {
      assert EntryOf(targets[i]) != EntryOf(targets[n]);
    }
  }

  lemma RetriedNext(s: State, t: State, v: State, items: Items, deliver: (string, string) -> Outcome,
                    targets: seq<Target>, n: nat)
    requires n < |targets| && RetriedUpTo(s, t, items, deliver, targets, n) && AtTarget(s, v, targets, n + 1)
    requires targets[n].replica in t.stores && !Among(targets, n, targets[n].key, targets[n].replica)
    requires var k, r := targets[n].key, targets[n].replica;
             && v.pending == (if Resolved(items, s.clock, deliver, k, r) then Forgotten(t.pending, k, r) else t.pending)
             && v.stores == if Sent(items, s.clock, deliver, k, r) then t.stores[r := Resent(t.stores, items, k, r)]
                            else t.stores
    ensures RetriedUpTo(s, v, items, deliver, targets, n + 1)
  {
    ClearStep(s.pending, t.pending, items, s.clock, deliver, targets, n);
    DeliverStep(s.stores, t.stores, items, s.clock, deliver, targets, n);
  }

  lemma {:induction false} RetryAll(h: Host, s0: State, s: State, deliver: (string, string) -> Outcome,
                                    targets: seq<Target>, n: nat)
    returns (t: State)
    requires RunsTo(h, s0, s) && AtTarget(s, s, targets, 0) && Tidy(s.pending) && Aimed(h, s.stores, targets)
    requires n <= |targets|
    ensures RunsTo(h, s0, t) && RetriedUpTo(s, t, s.stores[h.node], deliver, targets, n)
  {
    if n == 0 {
      t := s;
    } else {
      var before := RetryAll(h, s0, s, deliver, targets, n - 1);
      var k, r := targets[n - 1].key, targets[n - 1].replica;
      OwnCopyStays(h, s, before, deliver, targets, n - 1);
      t := RetryOne(h, s0, s, before, targets, n - 1, deliver(k, r));
      RetriedNext(s, before, t, s.stores[h.node], deliver, targets, n - 1);
    }
  }

  /** A pass with nothing in between is a run, with exactly the effect of `Primary.RetryFailedReplications`. */
  lemma QuietPass(h: Host, s: State, deliver: (string, string) -> Outcome) returns (t: State)
    requires Formed(h, s) && s.pass.None?
    ensures RunsTo(h, s, t)
    ensures PassDone(s.pending, t.pending, s.stores, t.stores, s.stores[h.node], h.limits, s.clock, deliver)
    ensures t.gaveUp == s.gaveUp + GivenUp(s.pending, h.limits, s.clock)
    ensures t.clock == s.clock && t.sent == s.sent && t.tasks == s.tasks && t.pass.None?
  {
    var pruned, targets := ScanExists(s.pending, h.limits, s.clock, Entries(s.pending));
    var scan := Scan(targets, pruned);
    RunsToSelf(h, s);
    RunsToStep(h, s, s, scan);
    var scanned := Next(h, s, scan);
    StepKeepsTargets(h, s, scan);
    t := RetryAll(h, s, scanned, deliver, targets, |targets|);
    RunsToStep(h, s, t, EndPass);
    t := Next(h, t, EndPass);
    HalvesMakePass(s.pending, pruned, t.pending, s.stores, t.stores, s.stores[h.node], h.limits, s.clock, deliver,
                   Entries(s.pending), targets);
  }
}
