/**
  Asynchronous replication from a key's primary and the table of failed sends. Stores do not evict
  here, and each operation reads the clock once unless it says otherwise.
 */
module Replication {
  import opened Lists
  import opened Expiry
  import opened StoreSpec
  import opened Topology

  // ---------- The table of failed sends ----------

  /** For a key and a replica, when a send first failed: the map of maps `pendingRepls`. */
  type Table = map<string, map<string, Time>>

  function FirstFail(t: Table, key: string, replica: string): Option<Time> {
    if key in t && replica in t[key] then Some(t[key][replica]) else None
  }

  /** No key is left with an empty inner map. */
  predicate Tidy(t: Table) {
    forall k <- t :: t[k] != map[]
  }

  /** Every entry names a replica of a key of this primary. */
  ghost predicate Addressed(t: Table, p: Placement, node: string) {
    forall k, r :: FirstFail(t, k, r).Some? ==> Served(p, node, k) && IsReplica(p.group(k), r)
  }

  /** `trackFailedReplication`: an entry that exists keeps its time. */
  function Tracked(t: Table, key: string, replica: string, now: Time): Table {
    var replicas := if key in t then t[key] else map[];
    t[key := if replica in replicas then replicas else replicas[replica := now]]
  }

  lemma TrackedEntries(t: Table, key: string, replica: string, now: Time)
    requires Tidy(t)
    ensures Tidy(Tracked(t, key, replica, now))
    ensures forall k, r :: FirstFail(Tracked(t, key, replica, now), k, r)
                           == if k == key && r == replica && FirstFail(t, k, r).None? then Some(now)
                             else FirstFail(t, k, r)
  {
    var u := Tracked(t, key, replica, now);
    assert replica in u[key];
  }

  /** Delete an entry, and its key with the last one. */
  function Forgotten(t: Table, key: string, replica: string): Table {
    if key !in t then t
    else if t[key] - {replica} == map[] then t - {key}
    else t[key := t[key] - {replica}]
  }

  lemma ForgottenEntries(t: Table, key: string, replica: string)
    requires Tidy(t)
    ensures Tidy(Forgotten(t, key, replica))
    ensures forall k, r :: FirstFail(Forgotten(t, key, replica), k, r)
                           == if k == key && r == replica then None else FirstFail(t, k, r)
  {
    if key in t {
      forall r ensures r in t[key] - {replica} <==> r in t[key] && r != replica {}
    }
  }

  datatype Target = Target(key: string, replica: string, firstFail: Time)

  datatype Limits = Limits(retryInterval: int, maxPendingAge: int)

  // ---------- What replication keeps ----------

  predicate Served(p: Placement, node: string, key: string) {
    p.group(key) != [] && p.group(key)[0] == node
  }

  predicate IsReplica(group: seq<string>, r: string) {
    group != [] && r in group && r != group[0]
  }

  type Stores = map<string, Items>

  /** The expiry last sent for each key, which a later clock reading than the stored one produced. */
  type Announced = map<string, Time>

  function SentAs(sent: Announced, key: string, t: Time): Time {
    if key in sent then sent[key] else t
  }

  /**
    While the primary's copy is current the replica has it: the same value, and its expiry as stored or as
    announced, transferred.
   */
  predicate Covered(stores: Stores, now: Time, node: string, sent: Announced, key: string, r: string)
    requires node in stores && r in stores
  {
    key in stores[node] && Current(stores[node][key], now) ==>
      && key in stores[r]
      && stores[r][key].value == stores[node][key].value
      && Transferred(stores[node][key].expiresAt, SentAs(sent, key, stores[node][key].expiresAt),
                     stores[r][key].expiresAt)
  }

  /** A covering copy is served by the replica. */
  lemma CoveredIsReadable(stores: Stores, now: Time, node: string, sent: Announced, key: string, r: string)
    requires node in stores && r in stores && Covered(stores, now, node, sent, key, r)
    requires key in stores[node] && Current(stores[node][key], now)
    ensures Live(stores[node], key, now)
    ensures Fetch(stores[r], key, now).Some? && Fetch(stores[r], key, now).value.value == stores[node][key].value
  {
    var t := stores[node][key].expiresAt;
    TransferredWithin(t, SentAs(sent, key, t), stores[r][key].expiresAt, now);
  }

  /** Replicated, listed for retry, or given up. */
  ghost predicate Accounted(node: string, stores: Stores, now: Time, sent: Announced, t: Table,
                            gaveUp: set<(string, string)>,
                            key: string, r: string)
    requires node in stores && r in stores
  {
    (key, r) in gaveUp || FirstFail(t, key, r).Some? || Covered(stores, now, node, sent, key, r)
  }

  ghost predicate AllAccounted(p: Placement, node: string, stores: Stores, now: Time, sent: Announced, t: Table,
                               gaveUp: set<(string, string)>)
    requires node in stores
  {
    forall key, r :: Served(p, node, key) && IsReplica(p.group(key), r) ==>
                       r in stores && Accounted(node, stores, now, sent, t, gaveUp, key, r)
  }

  /** The deadline a second, later clock reading gives. */
  lemma DeadlineSpreads(ttl: int, now: Time, later: Time)
    requires 0 <= now <= later
    ensures Spread(Deadline(ttl, now), Deadline(ttl, later))
    ensures Transferred(Deadline(ttl, now), Deadline(ttl, later), Hop(Deadline(ttl, later)))
  {
  }

  // ---------- The effect of a write on the replicas ----------

  /** The copy a replica stores for a transferred value. */
  function Received(m: Items, key: string, value: string, expiresAt: Time): Items {
    Written(m, key, value, Hop(expiresAt))
  }

  /** `stores` after the calls to group members `1..i`: a member changed unless its call was lost. */
  ghost predicate SentTo(before: Stores, after: Stores, group: seq<string>, i: nat, outcome: string -> Outcome,
                         key: string, value: string, expiresAt: Time)
    requires i <= |group|
  {
    && before.Keys == after.Keys
    && forall n <- before :: after[n] == if Reached(group, i, n) && !outcome(n).Lost?
                                         then Received(before[n], key, value, expiresAt) else before[n]
  }

  predicate Reached(group: seq<string>, i: nat, n: string)
    requires i <= |group|
  {
    exists j :: 1 <= j < i && group[j] == n
  }

  lemma ReachedNext(group: seq<string>, i: nat, n: string)
    requires 1 <= i < |group| && Distinct(group)
    ensures Reached(group, i + 1, n) <==> Reached(group, i, n) || n == group[i]
    ensures !Reached(group, i, group[i])
  {
  }

  lemma ReachedAll(group: seq<string>, n: string)
    requires Distinct(group)
    ensures Reached(group, |group|, n) <==> IsReplica(group, n)
    ensures |group| > 0 ==> !Reached(group, 1, n)
  {
  }

  /** The table after those calls: an unanswered call leaves an entry with the first failure's time. */
  ghost predicate FailedTo(before: Table, after: Table, group: seq<string>, i: nat, outcome: string -> Outcome,
                           key: string, now: Time)
    requires i <= |group|
  {
    forall k, r :: FirstFail(after, k, r) == if k == key && Reached(group, i, r) && !outcome(r).Replied?
      && FirstFail(before, k, r).None?
                                             then Some(now) else FirstFail(before, k, r)
  }

  lemma SendStep(before: Stores, mid: Stores, group: seq<string>, i: nat, outcome: string -> Outcome,
                 key: string, value: string, expiresAt: Time)
    requires Distinct(group) && 1 <= i < |group| && group[i] in mid
    requires SentTo(before, mid, group, i, outcome, key, value, expiresAt)
    ensures var after := if outcome(group[i]).Lost? then mid
                         else mid[group[i] := Received(mid[group[i]], key, value, expiresAt)];
            SentTo(before, after, group, i + 1, outcome, key, value, expiresAt)
  {
    forall n ensures Reached(group, i + 1, n) <==> Reached(group, i, n) || n == group[i] {
      ReachedNext(group, i, n);
    }
    ReachedNext(group, i, group[i]);
  }

  lemma FailStep(before: Table, mid: Table, group: seq<string>, i: nat, outcome: string -> Outcome, key: string,
                 now: Time)
    requires Distinct(group) && 1 <= i < |group| && Tidy(mid)
    requires FailedTo(before, mid, group, i, outcome, key, now)
    ensures var after := if outcome(group[i]).Replied? then mid else Tracked(mid, key, group[i], now);
            Tidy(after) && FailedTo(before, after, group, i + 1, outcome, key, now)
  {
    TrackedEntries(mid, key, group[i], now);
    forall n ensures Reached(group, i + 1, n) <==> Reached(group, i, n) || n == group[i] {
      ReachedNext(group, i, n);
    }
    ReachedNext(group, i, group[i]);
  }

  predicate SameCopy(m: Items, m': Items, k: string) {
    if k in m then k in m' && m'[k] == m[k] else k !in m'
  }

  lemma OtherKeyCovered(before: Stores, after: Stores, node: string, r: string, k: string, now: Time, later: Time,
                        sent: Announced, sent': Announced)
    requires node in before && node in after && r in before && r in after && now <= later
    requires SameCopy(before[node], after[node], k) && SameCopy(before[r], after[r], k)
    requires k in sent <==> k in sent' && (k in sent ==> sent'[k] == sent[k])
    ensures Covered(before, now, node, sent, k, r) ==> Covered(after, later, node, sent', k, r)
  {
  }

  /** A served write leaves its key replicated or listed at every replica, and no other key worse off. */
  lemma WriteAccounts(p: Placement, node: string, before: Stores, mid: Stores, after: Stores, t: Table, t': Table,
                      gaveUp: set<(string, string)>, sent: Announced, outcome: string -> Outcome,
                      key: string, value: string, ttl: int, now: Time, later: Time)
    requires node in before && Distinct(p.group(key)) && Served(p, node, key) && 0 <= now <= later
    requires AllAccounted(p, node, before, now, sent, t, gaveUp)
    requires mid == before[node := Written(before[node], key, value, Deadline(ttl, now))]
    requires SentTo(mid, after, p.group(key), |p.group(key)|, outcome, key, value, Deadline(ttl, later))
    requires FailedTo(t, t', p.group(key), |p.group(key)|, outcome, key, later)
    ensures AllAccounted(p, node, after, later, sent[key := Deadline(ttl, later)], t', gaveUp - AllPairs(gaveUp, key))
    ensures Addressed(t, p, node) ==> Addressed(t', p, node)
  {
    var group := p.group(key);
    forall n ensures Reached(group, |group|, n) <==> IsReplica(group, n) {
      ReachedAll(group, n);
    }
    var sent' := sent[key := Deadline(ttl, later)];
    DeadlineSpreads(ttl, now, later);
    forall k, r | Served(p, node, k) && IsReplica(p.group(k), r)
      ensures r in after && Accounted(node, after, later, sent', t', gaveUp - AllPairs(gaveUp, key), k, r)
    {
      assert r in before && Accounted(node, before, now, sent, t, gaveUp, k, r);
      if k == key {
        assert outcome(r).Replied? ==> Covered(after, later, node, sent', key, r);
      } else {
        OtherKeyCovered(before, after, node, r, k, now, later, sent, sent');
        assert (k, r) in gaveUp ==> (k, r) in gaveUp - AllPairs(gaveUp, key);
      }
    }
  }

  /** The stores in plain terms: the primary and each replica whose call is not lost take the value, no other node. */
  ghost predicate WroteThrough(before: Stores, after: Stores, group: seq<string>, outcome: string -> Outcome,
                               key: string, value: string, ttl: int, now: Time, later: Time)
    requires group != []
  {
    && before.Keys == after.Keys && (forall n <- group :: n in before)
    && TakesNext(before[group[0]], after[group[0]], key, value, if ttl > 0 then now + ttl else NEVER)
    && (forall r <- group | r != group[0] ::
          if outcome(r).Lost? then after[r] == before[r]
          else TakesNext(before[r], after[r], key, value, Hop(if ttl > 0 then later + ttl else NEVER)))
    && (forall n <- before | n !in group :: after[n] == before[n])
  }

  lemma WrittenThrough(before: Stores, mid: Stores, after: Stores, group: seq<string>, outcome: string -> Outcome,
                       key: string, value: string, ttl: int, now: Time, later: Time)
    requires group != [] && Distinct(group) && forall n <- group :: n in before
    requires mid == before[group[0] := Written(before[group[0]], key, value, Deadline(ttl, now))]
    requires SentTo(mid, after, group, |group|, outcome, key, value, Deadline(ttl, later))
    ensures WroteThrough(before, after, group, outcome, key, value, ttl, now, later)
  {
    forall n ensures Reached(group, |group|, n) <==> IsReplica(group, n) {
      ReachedAll(group, n);
    }
    WrittenTakesNext(before[group[0]], key, value, Deadline(ttl, now));
    forall r <- group | r != group[0]
      ensures if outcome(r).Lost? then after[r] == before[r]
              else TakesNext(before[r], after[r], key, value, Hop(if ttl > 0 then later + ttl else NEVER))
    {
      WrittenTakesNext(before[r], key, value, Hop(Deadline(ttl, later)));
    }
  }

  /** The table in plain terms: exactly the unanswered calls are listed, under the time of the first failure. */
  ghost predicate FailuresListed(t: Table, t': Table, group: seq<string>, outcome: string -> Outcome, key: string,
                                 now: Time)
    requires group != []
  {
    forall k, r :: FirstFail(t', k, r)
                   == if && k == key && r in group && r != group[0] && !outcome(r).Replied?
                         && FirstFail(t, k, r).None?
                      then Some(now) else FirstFail(t, k, r)
  }

  lemma FailedAreListed(t: Table, t': Table, group: seq<string>, outcome: string -> Outcome, key: string, now: Time)
    requires group != [] && Distinct(group) && FailedTo(t, t', group, |group|, outcome, key, now)
    ensures FailuresListed(t, t', group, outcome, key, now)
  {
    forall n ensures Reached(group, |group|, n) <==> IsReplica(group, n) {
      ReachedAll(group, n);
    }
  }

  function AllPairs(pairs: set<(string, string)>, key: string): set<(string, string)> {
    set e | e in pairs && e.0 == key
  }

  // ---------- The two halves of a retry pass ----------

  /** After the scan of the pairs `seen`: entries that are too old are gone, all others untouched. */
  ghost predicate Pruned(before: Table, after: Table, limits: Limits, now: Time, seen: set<(string, string)>) {
    forall k, r :: FirstFail(after, k, r) == if (k, r) in seen && Old(before, limits, now, k, r) then None
      else FirstFail(before, k, r)
  }

  ghost predicate Old(t: Table, limits: Limits, now: Time, k: string, r: string) {
    FirstFail(t, k, r).Some? && now - FirstFail(t, k, r).value >= limits.maxPendingAge
  }

  ghost predicate Ripe(t: Table, limits: Limits, now: Time, k: string, r: string) {
    FirstFail(t, k, r).Some? && limits.retryInterval <= now - FirstFail(t, k, r).value < limits.maxPendingAge
  }

  /** The collected targets are the scanned pairs whose time has come, each once. */
  ghost predicate Collected(t: Table, limits: Limits, now: Time, seen: set<(string, string)>, targets: seq<Target>) {
    && (forall i, j :: 0 <= i < j < |targets| ==> EntryOf(targets[i]) != EntryOf(targets[j]))
    && (forall i :: 0 <= i < |targets| ==>
          EntryOf(targets[i]) in seen && Ripe(t, limits, now, targets[i].key, targets[i].replica))
    && (forall k, r :: (k, r) in seen && Ripe(t, limits, now, k, r) ==> Among(targets, |targets|, k, r))
  }

  function EntryOf(t: Target): (string, string) { (t.key, t.replica) }

  predicate Among(targets: seq<Target>, n: nat, k: string, r: string)
    requires n <= |targets|
  {
    exists i :: 0 <= i < n && targets[i].key == k && targets[i].replica == r
  }

  lemma AmongSnoc(targets: seq<Target>, t: Target, k: string, r: string)
    ensures Among(targets + [t], |targets| + 1, k, r)
            <==> Among(targets, |targets|, k, r) || (k == t.key && r == t.replica)
  {
    var all := targets + [t];
    if Among(targets, |targets|, k, r) {
      var i :| 0 <= i < |targets| && targets[i].key == k && targets[i].replica == r;
      assert all[i] == targets[i];
    }
    assert all[|targets|] == t;
  }

  lemma AmongNext(targets: seq<Target>, n: nat, k: string, r: string)
    requires n < |targets|
    ensures Among(targets, n + 1, k, r) <==> Among(targets, n, k, r) || (k == targets[n].key && r == targets[n].replica)
  {
  }

  lemma PruneStep(t: Table, mid: Table, limits: Limits, now: Time, seen: set<(string, string)>, k: string, r: string)
    requires Tidy(mid) && Pruned(t, mid, limits, now, seen)
    ensures var after := if Old(t, limits, now, k, r) then Forgotten(mid, k, r) else mid;
            Tidy(after) && Pruned(t, after, limits, now, seen + {(k, r)})
  {
    ForgottenEntries(mid, k, r);
  }

  lemma CollectStep(t: Table, limits: Limits, now: Time, seen: set<(string, string)>, targets: seq<Target>,
                    k: string, r: string, first: Time)
    requires Collected(t, limits, now, seen, targets) && (k, r) !in seen && FirstFail(t, k, r) == Some(first)
    ensures var ripe := limits.retryInterval <= now - first < limits.maxPendingAge;
            Collected(t, limits, now, seen + {(k, r)}, if ripe then targets + [Target(k, r, first)] else targets)
  {
    if limits.retryInterval <= now - first < limits.maxPendingAge {
      var more := targets + [Target(k, r, first)];
      forall i | 0 <= i < |targets| ensures more[i] == targets[i] {}
      forall a, b | (a, b) in seen + {(k, r)} && Ripe(t, limits, now, a, b) ensures Among(more, |more|, a, b) {
        AmongSnoc(targets, Target(k, r, first), a, b);
      }
    }
  }

  /** The scan in plain numbers: who stays listed and who is collected. */
  ghost predicate ScannedAt(t: Table, t': Table, limits: Limits, now: Time, targets: seq<Target>, k: string, r: string)
    requires k in t && r in t[k]
  {
    var age := now - t[k][r];
    && FirstFail(t', k, r) == (if age >= limits.maxPendingAge then None else Some(t[k][r]))
    && ((exists x <- targets :: x.key == k && x.replica == r)
        <==> limits.retryInterval <= age < limits.maxPendingAge)
  }

  lemma ScanIs(t: Table, t': Table, limits: Limits, now: Time, seen: set<(string, string)>, targets: seq<Target>)
    requires Pruned(t, t', limits, now, seen) && Collected(t, limits, now, seen, targets)
    ensures forall k, r | k in t && r in t[k] && (k, r) in seen :: ScannedAt(t, t', limits, now, targets, k, r)
  {
    forall k, r | k in t && r in t[k] && (k, r) in seen ensures ScannedAt(t, t', limits, now, targets, k, r) {
      if x :| x in targets && x.key == k && x.replica == r {
        var i :| 0 <= i < |targets| && targets[i] == x;
        assert Ripe(t, limits, now, targets[i].key, targets[i].replica);
      }
      if Ripe(t, limits, now, k, r) {
        var i :| 0 <= i < |targets| && targets[i].key == k && targets[i].replica == r;
        assert targets[i] in targets;
      }
    }
  }

  /** What becomes of a target: `deliver` says what happens to the call to a replica for a key. */
  predicate Sent(items: Items, now: Time, deliver: (string, string) -> Outcome, k: string, r: string) {
    Live(items, k, now) && !deliver(k, r).Lost?
  }

  predicate Resolved(items: Items, now: Time, deliver: (string, string) -> Outcome, k: string, r: string) {
    !Live(items, k, now) || deliver(k, r).Replied?
  }

  /** After the first `n` targets: resolved entries are gone. */
  ghost predicate Cleared(before: Table, after: Table, items: Items, now: Time, deliver: (string, string) -> Outcome,
                          targets: seq<Target>, n: nat)
    requires n <= |targets|
  {
    forall k, r :: FirstFail(after, k, r) == if Among(targets, n, k, r) && Resolved(items, now, deliver, k, r) then None
                                             else FirstFail(before, k, r)
  }

  /** A replica's copy after the pass: the primary's, transferred, if it was sent and arrived. */
  function Resent(before: Stores, items: Items, k: string, r: string): Items
    requires r in before && k in items
  {
    Received(before[r], k, items[k].value, items[k].expiresAt)
  }

  /** After the first `n` targets: exactly the copies that were sent and arrived have been replaced. */
  ghost predicate Delivered(before: Stores, after: Stores, items: Items, now: Time,
                            deliver: (string, string) -> Outcome,
                            targets: seq<Target>, n: nat)
    requires n <= |targets|
  {
    && before.Keys == after.Keys
    && forall r, k :: r in before ==>
         CopyAfter(before[r], after[r], items, k, Arrived(items, now, deliver, targets, n, k, r))
  }

  predicate Arrived(items: Items, now: Time, deliver: (string, string) -> Outcome, targets: seq<Target>, n: nat,
                    k: string, r: string)
    requires n <= |targets|
  {
    Among(targets, n, k, r) && Sent(items, now, deliver, k, r)
  }

  predicate CopyAfter(before: Items, after: Items, items: Items, k: string, replaced: bool)
    requires replaced ==> k in items
  {
    if replaced then k in after && after[k] == NextItem(before, k, items[k].value, Hop(items[k].expiresAt))
    else SameCopy(before, after, k)
  }

  lemma ClearStep(before: Table, mid: Table, items: Items, now: Time, deliver: (string, string) -> Outcome,
                  targets: seq<Target>, n: nat)
    requires n < |targets| && Tidy(mid) && Cleared(before, mid, items, now, deliver, targets, n)
    ensures var t := targets[n];
            var after := if Resolved(items, now, deliver, t.key, t.replica) then Forgotten(mid, t.key, t.replica)
              else mid;
            Tidy(after) && Cleared(before, after, items, now, deliver, targets, n + 1)
  {
    ForgottenEntries(mid, targets[n].key, targets[n].replica);
    forall k, r ensures Among(targets, n + 1, k, r)
      <==> Among(targets, n, k, r) || (k == targets[n].key && r == targets[n].replica) {
      AmongNext(targets, n, k, r);
    }
  }

  lemma DeliverStep(before: Stores, mid: Stores, items: Items, now: Time, deliver: (string, string) -> Outcome,
                    targets: seq<Target>, n: nat)
    requires n < |targets| && Delivered(before, mid, items, now, deliver, targets, n)
    requires targets[n].replica in mid && !Among(targets, n, targets[n].key, targets[n].replica)
    ensures var k, r := targets[n].key, targets[n].replica;
            var after := if Sent(items, now, deliver, k, r) then mid[r := Resent(mid, items, k, r)] else mid;
            Delivered(before, after, items, now, deliver, targets, n + 1)
  {
    var t, m := targets[n], n + 1;
    var sent := Sent(items, now, deliver, t.key, t.replica);
    var after := if sent then mid[t.replica := Resent(mid, items, t.key, t.replica)] else mid;
    forall r, k | r in before
      ensures CopyAfter(before[r], after[r], items, k, Arrived(items, now, deliver, targets, m, k, r))
    {
      AmongNext(targets, n, k, r);
      assert CopyAfter(before[r], mid[r], items, k, Arrived(items, now, deliver, targets, n, k, r));
    }
  }

  /** One pass keeps an entry exactly when this holds. */
  ghost predicate Survives(t: Table, items: Items, limits: Limits, now: Time, deliver: (string, string) -> Outcome,
                     k: string, r: string) {
    !Old(t, limits, now, k, r) && !(Ripe(t, limits, now, k, r) && Resolved(items, now, deliver, k, r))
  }

  /** The pairs one pass gives up on. */
  ghost function GivenUp(t: Table, limits: Limits, now: Time): set<(string, string)> {
    set k, r | k in t && r in t[k] && now - t[k][r] >= limits.maxPendingAge :: (k, r)
  }

  ghost predicate Scanned(t: Table, seen: set<(string, string)>) {
    forall k, r :: (k, r) in seen <==> FirstFail(t, k, r).Some?
  }

  /** The table and the stores after a whole pass, entry by entry and copy by copy. */
  ghost predicate PassDone(t: Table, t': Table, before: Stores, after: Stores, items: Items, limits: Limits, now: Time,
                         deliver: (string, string) -> Outcome) {
    && (forall k, r ::
          FirstFail(t', k, r) == if Survives(t, items, limits, now, deliver, k, r) then FirstFail(t, k, r) else None)
    && before.Keys == after.Keys
    && (forall r, k :: r in before ==>
          CopyAfter(before[r], after[r], items, k, Refreshed(t, items, limits, now, deliver, k, r)))
  }

  ghost predicate Refreshed(t: Table, items: Items, limits: Limits, now: Time, deliver: (string, string) -> Outcome,
                      k: string, r: string) {
    Ripe(t, limits, now, k, r) && Sent(items, now, deliver, k, r)
  }

  lemma HalvesMakePass(t: Table, t1: Table, t2: Table, before: Stores, after: Stores, items: Items, limits: Limits,
                       now: Time,
                       deliver: (string, string) -> Outcome, seen: set<(string, string)>, targets: seq<Target>)
    requires Scanned(t, seen) && Pruned(t, t1, limits, now, seen) && Collected(t, limits, now, seen, targets)
    requires Cleared(t1, t2, items, now, deliver, targets, |targets|)
    requires Delivered(before, after, items, now, deliver, targets, |targets|)
    ensures PassDone(t, t2, before, after, items, limits, now, deliver)
  {
    forall k, r ensures Among(targets, |targets|, k, r) <==> Ripe(t, limits, now, k, r) {
      if Among(targets, |targets|, k, r) {
        var i :| 0 <= i < |targets| && targets[i].key == k && targets[i].replica == r;
        assert Ripe(t, limits, now, targets[i].key, targets[i].replica);
      }
      assert Ripe(t, limits, now, k, r) ==> (k, r) in seen;
    }
    forall k, r ensures FirstFail(t2, k, r) == if Survives(t, items, limits, now, deliver, k, r)
      then FirstFail(t, k, r) else None {
      assert Old(t, limits, now, k, r) ==> (k, r) in seen;
    }
    forall r, k | r in before
      ensures CopyAfter(before[r], after[r], items, k, Refreshed(t, items, limits, now, deliver, k, r))
    {
      assert CopyAfter(before[r], after[r], items, k, Arrived(items, now, deliver, targets, |targets|, k, r));
    }
  }

  /**
    An entry after a pass in plain numbers: dropped at the age limit; once the retry interval has passed, dropped
    too if the key is gone or the call is answered.
   */
  ghost predicate EntryAfter(t: Table, t': Table, items: Items, limits: Limits, now: Time,
                             deliver: (string, string) -> Outcome, k: string, r: string) {
    if FirstFail(t, k, r).None? then FirstFail(t', k, r).None?
    else
      var age := now - FirstFail(t, k, r).value;
      FirstFail(t', k, r) == if age >= limits.maxPendingAge then None
        else if age < limits.retryInterval then FirstFail(t, k, r)
        else if !(k in items && (items[k].expiresAt == NEVER || now < items[k].expiresAt)) then None
        else if deliver(k, r).Replied? then None else FirstFail(t, k, r)
  }

  /** A replica's copy after a pass: replaced by the primary's if it was due, still held and the call not lost. */
  ghost predicate CopyResent(t: Table, before: Items, after: Items, items: Items, limits: Limits, now: Time,
                             deliver: (string, string) -> Outcome, k: string, r: string) {
    if && FirstFail(t, k, r).Some?
       && limits.retryInterval <= now - FirstFail(t, k, r).value < limits.maxPendingAge
       && k in items && (items[k].expiresAt == NEVER || now < items[k].expiresAt) && !deliver(k, r).Lost?
    then k in after && after[k] == Item(items[k].value, Hop(items[k].expiresAt),
                                        if k in before then before[k].version + 1 else 1)
    else (k in after <==> k in before) && (k in before ==> after[k] == before[k])
  }

  lemma PassIs(t: Table, t': Table, before: Stores, after: Stores, items: Items, limits: Limits, now: Time,
               deliver: (string, string) -> Outcome)
    requires PassDone(t, t', before, after, items, limits, now, deliver)
    ensures forall k, r :: EntryAfter(t, t', items, limits, now, deliver, k, r)
    ensures forall k, r | r in before ::
              r in after && CopyResent(t, before[r], after[r], items, limits, now, deliver, k, r)
    ensures forall k, r :: (k, r) in GivenUp(t, limits, now)
                           <==> FirstFail(t, k, r).Some? && now - FirstFail(t, k, r).value >= limits.maxPendingAge
  {
    forall k, r ensures EntryAfter(t, t', items, limits, now, deliver, k, r) {
      assert FirstFail(t', k, r) == if Survives(t, items, limits, now, deliver, k, r) then FirstFail(t, k, r) else None;
    }
    forall k, r | r in before
      ensures r in after && CopyResent(t, before[r], after[r], items, limits, now, deliver, k, r)
    {
      assert CopyAfter(before[r], after[r], items, k, Refreshed(t, items, limits, now, deliver, k, r));
    }
  }

  /** A pass keeps every key replicated, listed or given up, and gives up on age alone. */
  lemma PassAccounts(p: Placement, node: string, before: Stores, after: Stores, t: Table, t': Table,
                     gaveUp: set<(string, string)>,
                     sent: Announced, limits: Limits, now: Time, deliver: (string, string) -> Outcome)
    requires node in before && AllAccounted(p, node, before, now, sent, t, gaveUp) && Addressed(t, p, node)
    requires PassDone(t, t', before, after, before[node], limits, now, deliver)
    ensures AllAccounted(p, node, after, now, sent, t', gaveUp + GivenUp(t, limits, now)) && Addressed(t', p, node)
  {
    forall k, r | Served(p, node, k) && IsReplica(p.group(k), r)
      ensures r in after && Accounted(node, after, now, sent, t', gaveUp + GivenUp(t, limits, now), k, r)
    {
      assert r in before && Accounted(node, before, now, sent, t, gaveUp, k, r);
      assert CopyAfter(before[node], after[node], before[node], k,
                       Refreshed(t, before[node], limits, now, deliver, k, node));
      assert CopyAfter(before[r], after[r], before[node], k, Refreshed(t, before[node], limits, now, deliver, k, r));
      assert !Ripe(t, limits, now, k, node);
      EntryAccounts(node, before, after, t, t', gaveUp, sent, limits, now, deliver, k, r);
    }
    forall k, r | FirstFail(t', k, r).Some? ensures Served(p, node, k) && IsReplica(p.group(k), r) {
      assert FirstFail(t, k, r).Some?;
    }
  }

  lemma EntryAccounts(node: string, before: Stores, after: Stores, t: Table, t': Table, gaveUp: set<(string, string)>,
                      sent: Announced, limits: Limits, now: Time, deliver: (string, string) -> Outcome, k: string,
                        r: string)
    requires node in before && r in before && before.Keys == after.Keys
             && Accounted(node, before, now, sent, t, gaveUp, k, r)
    requires SameCopy(before[node], after[node], k)
    requires CopyAfter(before[r], after[r], before[node], k, Refreshed(t, before[node], limits, now, deliver, k, r))
    requires FirstFail(t', k, r) == if Survives(t, before[node], limits, now, deliver, k, r) then FirstFail(t, k, r)
             else None
    ensures Accounted(node, after, now, sent, t', gaveUp + GivenUp(t, limits, now), k, r)
  {
    if FirstFail(t, k, r).Some? && !Old(t, limits, now, k, r) && FirstFail(t', k, r).None? {
      if Live(before[node], k, now) {
        assert Covered(after, now, node, sent, k, r);
      } else {
        assert k in before[node] ==> Floor(before[node][k].expiresAt) <= before[node][k].expiresAt <= now;
        assert Covered(after, now, node, sent, k, r);
      }
    }
  }

  /** Time and sweeps on any nodes do not disturb the accounts. */
  lemma SweepAccounts(p: Placement, node: string, stores: Stores, t: Table, gaveUp: set<(string, string)>,
                      sent: Announced,
                      now: Time, later: Time, swept: string)
    requires node in stores && swept in stores && now <= later && AllAccounted(p, node, stores, now, sent, t, gaveUp)
    ensures AllAccounted(p, node, stores[swept := Swept(stores[swept], later)], later, sent, t, gaveUp)
  {
    var after := stores[swept := Swept(stores[swept], later)];
    forall k, r | Served(p, node, k) && IsReplica(p.group(k), r)
      ensures r in after && Accounted(node, after, later, sent, t, gaveUp, k, r)
    {
      assert r in stores && Accounted(node, stores, now, sent, t, gaveUp, k, r);
      if Covered(stores, now, node, sent, k, r) {
        SweepCovered(stores, node, sent, now, later, swept, k, r);
      }
    }
  }

  lemma SweepCovered(stores: Stores, node: string, sent: Announced, now: Time, later: Time, swept: string, k: string,
                     r: string)
    requires node in stores && swept in stores && r in stores && now <= later && Covered(stores, now, node, sent, k, r)
    ensures Covered(stores[swept := Swept(stores[swept], later)], later, node, sent, k, r)
  {
    var after := stores[swept := Swept(stores[swept], later)];
    if k in after[node] && Current(after[node][k], later) {
      assert stores[node][k] == after[node][k];
      assert Covered(stores, later, node, sent, k, r);
      CoveredIsReadable(stores, later, node, sent, k, r);
    }
  }

  // ---------- The primary ----------

  lemma {:induction false} RowUntouched(t: Table, mid: Table, key: string)
    requires Tidy(t) && key in t
    requires forall r :: FirstFail(mid, key, r) == FirstFail(t, key, r)
    ensures key in mid && mid[key] == t[key]
  {
    var row := t[key];
    var r0 :| r0 in row;
    assert FirstFail(mid, key, r0).Some?;
    forall r ensures r in mid[key] <==> r in row {
      assert FirstFail(mid, key, r) == FirstFail(t, key, r);
    }
    forall r | r in row ensures mid[key][r] == row[r] {
      assert FirstFail(mid, key, r) == FirstFail(t, key, r);
    }
  }

  class Primary {
    const node: string
    const placement: Placement
    const limits: Limits
    var stores: Stores
    var clock: Time
    var pending: Table
    /** Pairs whose entry was dropped for its age and whose key has not been written since. */
    ghost var gaveUp: set<(string, string)>
    ghost var sent: Announced

    ghost predicate Valid()
      reads this
    {
      && clock >= 0 && node in stores
      && (forall key :: Served(placement, node, key) ==> Distinct(placement.group(key)))
      && Tidy(pending) && Addressed(pending, placement, node)
      && AllAccounted(placement, node, stores, clock, sent, pending, gaveUp)
    }

    /** A primary that starts with an empty store. */
    constructor (node: string, placement: Placement, limits: Limits, stores: Stores, clock: Time)
      requires clock >= 0 && node in stores && stores[node] == map[]
      requires forall key :: Served(placement, node, key) ==>
                 Distinct(placement.group(key)) && forall n <- placement.group(key) :: n in stores
      ensures Valid() && pending == map[] && gaveUp == {} && this.stores == stores
      ensures this.node == node && this.placement == placement && this.limits == limits && this.clock == clock
    {
      this.node, this.placement, this.limits, this.stores, this.clock := node, placement, limits, stores, clock;
      pending, gaveUp, sent := map[], {}, map[];
    }

    /** Time passes and a sweep runs on some node. */
    method Elapse(later: Time, swept: string)
      requires Valid() && later >= clock && swept in stores
      modifies this
      ensures Valid() && clock == later && pending == old(pending) && gaveUp == old(gaveUp) && sent == old(sent)
      ensures stores == old(stores)[swept := Swept(old(stores)[swept], later)]
    {
      SweepAccounts(placement, node, stores, pending, gaveUp, sent, clock, later, swept);
      stores := stores[swept := Swept(stores[swept], later)];
      clock := later;
    }

    /**
      `handleSet` at the primary and the replication it starts. The expiry sent to the replicas comes
      from a second, later clock reading; `outcome` says what happens to the call to each replica.
     */
    method ServeSet(key: string, value: string, ttl: int, later: Time, outcome: string -> Outcome)
      returns (allSuccess: bool)
      requires Valid() && later >= clock && Served(placement, node, key)
      modifies this
      ensures Valid() && clock == later
      ensures var mid := old(stores)[node := Written(old(stores)[node], key, value, Deadline(ttl, old(clock)))];
              var group := placement.group(key);
              SentTo(mid, stores, group, |group|, outcome, key, value, Deadline(ttl, later))
      ensures FailedTo(old(pending), pending, placement.group(key), |placement.group(key)|, outcome, key, later)
      ensures WroteThrough(old(stores), stores, placement.group(key), outcome, key, value, ttl, old(clock), later)
      ensures FailuresListed(old(pending), pending, placement.group(key), outcome, key, later)
      ensures gaveUp == old(gaveUp) - AllPairs(old(gaveUp), key) && sent == old(sent)[key := Deadline(ttl, later)]
      ensures allSuccess <==> forall r | IsReplica(placement.group(key), r) :: outcome(r).Replied?
    {
      ghost var s0, t0, now := stores, pending, clock;
      stores := stores[node := Written(stores[node], key, value, Deadline(ttl, clock))];
      ghost var mid := stores;
      clock := later;
      allSuccess := ReplicateSet(key, value, Deadline(ttl, later), outcome);
      WrittenThrough(s0, mid, stores, placement.group(key), outcome, key, value, ttl, now, later);
      FailedAreListed(t0, pending, placement.group(key), outcome, key, later);
      WriteAccounts(placement, node, s0, mid, stores, t0, pending, gaveUp, sent, outcome, key, value, ttl, now, later);
      gaveUp := gaveUp - AllPairs(gaveUp, key);
      sent := sent[key := Deadline(ttl, later)];
    }

    method ReplicateSet(key: string, value: string, expiresAt: Time, outcome: string -> Outcome)
      returns (allSuccess: bool)
      requires Served(placement, node, key) && Distinct(placement.group(key)) && Tidy(pending)
      requires forall n <- placement.group(key) :: n in stores
      modifies this`stores, this`pending
      ensures SentTo(old(stores), stores, placement.group(key), |placement.group(key)|, outcome, key, value, expiresAt)
      ensures Tidy(pending)
      ensures FailedTo(old(pending), pending, placement.group(key), |placement.group(key)|, outcome, key, clock)
      ensures allSuccess <==> forall r | IsReplica(placement.group(key), r) :: outcome(r).Replied?
    {
      var group := placement.group(key);
      allSuccess := true;
      for i := 1 to |group|
        invariant SentTo(old(stores), stores, group, i, outcome, key, value, expiresAt)
        invariant Tidy(pending) && FailedTo(old(pending), pending, group, i, outcome, key, clock)
        invariant allSuccess <==> forall j :: 1 <= j < i ==> outcome(group[j]).Replied?
      {
        SendStep(old(stores), stores, group, i, outcome, key, value, expiresAt);
        FailStep(old(pending), pending, group, i, outcome, key, clock);
        if !outcome(group[i]).Lost? {
          stores := stores[group[i] := Received(stores[group[i]], key, value, expiresAt)];
        }
        if !outcome(group[i]).Replied? {
          allSuccess := false;
          pending := Tracked(pending, key, group[i], clock);
        }
      }
    }

    /** One retry pass; `deliver` says what happens to the call to a replica for a key. */
    method RetryFailedReplications(deliver: (string, string) -> Outcome)
      requires Valid()
      modifies this
      ensures Valid() && clock == old(clock)
      ensures PassDone(old(pending), pending, old(stores), stores, old(stores)[node], limits, clock, deliver)
      ensures gaveUp == old(gaveUp) + GivenUp(old(pending), limits, clock) && sent == old(sent)
      ensures forall k, r :: EntryAfter(old(pending), pending, old(stores)[node], limits, clock, deliver, k, r)
      ensures stores.Keys == old(stores).Keys
      ensures forall k, r | r in old(stores) ::
                CopyResent(old(pending), old(stores)[r], stores[r], old(stores)[node], limits, clock, deliver, k, r)
      ensures forall k, r :: (k, r) in gaveUp
                <==> (k, r) in old(gaveUp)
                     || (FirstFail(old(pending), k, r).Some?
                         && clock - FirstFail(old(pending), k, r).value >= limits.maxPendingAge)
    {
      ghost var t0, s0 := pending, stores;
      var targets, seen := CollectTargets();
      ghost var t1 := pending;
      CollectedAreAimed(t0, seen, targets);
      RetryTargets(targets, deliver);
      HalvesMakePass(t0, t1, pending, s0, stores, s0[node], limits, clock, deliver, seen, targets);
      PassAccounts(placement, node, s0, stores, t0, pending, gaveUp, sent, limits, clock, deliver);
      PassIs(t0, pending, s0, stores, s0[node], limits, clock, deliver);
      gaveUp := gaveUp + GivenUp(t0, limits, clock);
    }

    /** The scan under the lock: drop entries that are too old, collect those that are due. */
    method CollectTargets() returns (targets: seq<Target>, ghost seen: set<(string, string)>)
      requires Tidy(pending)
      modifies this`pending
      ensures Tidy(pending) && Scanned(old(pending), seen)
      ensures Pruned(old(pending), pending, limits, clock, seen)
      ensures Collected(old(pending), limits, clock, seen, targets)
      ensures forall k, r | k in old(pending) && r in old(pending)[k] ::
                ScannedAt(old(pending), pending, limits, clock, targets, k, r)
    {
      ghost var t0 := pending;
      targets, seen := [], {};
      var keys := pending.Keys;
      while keys != {}
        invariant keys <= t0.Keys && Tidy(pending)
        invariant forall k, r :: (k, r) in seen <==> FirstFail(t0, k, r).Some? && k !in keys
        invariant Pruned(t0, pending, limits, clock, seen) && Collected(t0, limits, clock, seen, targets)
      {
        var key :| key in keys;
        RowUntouched(t0, pending, key);
        targets, seen := ScanKey(key, t0, targets, seen);
        keys := keys - {key};
      }
      ScanIs(t0, pending, limits, clock, seen, targets);
    }

    method ScanKey(key: string, ghost t0: Table, before: seq<Target>, ghost seen0: set<(string, string)>)
      returns (targets: seq<Target>, ghost seen: set<(string, string)>)
      requires Tidy(pending) && key in pending && key in t0 && pending[key] == t0[key]
      requires forall r :: (key, r) !in seen0
      requires Pruned(t0, pending, limits, clock, seen0) && Collected(t0, limits, clock, seen0, before)
      modifies this`pending
      ensures Tidy(pending)
      ensures forall k, r :: (k, r) in seen <==> (k, r) in seen0 || (k == key && r in t0[key])
      ensures Pruned(t0, pending, limits, clock, seen) && Collected(t0, limits, clock, seen, targets)
      ensures forall r <- t0[key] :: ScannedAt(t0, pending, limits, clock, targets, key, r)
    {
      targets, seen := before, seen0;
      var replicas := pending[key];
      var left := replicas.Keys;
      while left != {}
        invariant left <= replicas.Keys && Tidy(pending)
        invariant forall k, r :: (k, r) in seen <==> (k, r) in seen0 || (k == key && r in replicas && r !in left)
        invariant Pruned(t0, pending, limits, clock, seen) && Collected(t0, limits, clock, seen, targets)
      {
        var r :| r in left;
        left := left - {r};
        var age := clock - replicas[r];
        assert FirstFail(t0, key, r) == Some(replicas[r]);
        PruneStep(t0, pending, limits, clock, seen, key, r);
        CollectStep(t0, limits, clock, seen, targets, key, r, replicas[r]);
        seen := seen + {(key, r)};
        if age >= limits.maxPendingAge {
          pending := Forgotten(pending, key, r);
        } else if age >= limits.retryInterval {
          targets := targets + [Target(key, r, replicas[r])];
        }
      }
      ScanIs(t0, pending, limits, clock, seen, targets);
    }

    /** No pair occurs twice, and each names a running replica of a key served here. */
    ghost predicate Aimed(targets: seq<Target>, running: set<string>) {
      && (forall i, j :: 0 <= i < j < |targets| ==> EntryOf(targets[i]) != EntryOf(targets[j]))
      && (forall i :: 0 <= i < |targets| ==> InGroup(targets[i].key, targets[i].replica, running))
    }

    ghost predicate InGroup(key: string, replica: string, running: set<string>) {
      && replica in running && Served(placement, node, key) && Distinct(placement.group(key))
      && IsReplica(placement.group(key), replica)
    }

    lemma CollectedAreAimed(t: Table, seen: set<(string, string)>, targets: seq<Target>)
      requires Collected(t, limits, clock, seen, targets) && Addressed(t, placement, node)
      requires forall key :: Served(placement, node, key) ==> Distinct(placement.group(key))
      requires forall key, r :: Served(placement, node, key) && IsReplica(placement.group(key), r) ==> r in stores
      ensures Aimed(targets, stores.Keys)
    {
      forall i | 0 <= i < |targets| ensures InGroup(targets[i].key, targets[i].replica, stores.Keys) {
        assert Ripe(t, limits, clock, targets[i].key, targets[i].replica);
      }
    }

    /** The loop over the targets. */
    method RetryTargets(targets: seq<Target>, deliver: (string, string) -> Outcome)
      requires Tidy(pending) && node in stores && Aimed(targets, stores.Keys)
      modifies this`stores, this`pending
      ensures Tidy(pending)
      ensures Cleared(old(pending), pending, old(stores)[node], clock, deliver, targets, |targets|)
      ensures Delivered(old(stores), stores, old(stores)[node], clock, deliver, targets, |targets|)
    {
      ghost var t0, s0 := pending, stores;
      for n := 0 to |targets|
        invariant Tidy(pending) && Cleared(t0, pending, s0[node], clock, deliver, targets, n)
        invariant Delivered(s0, stores, s0[node], clock, deliver, targets, n)
        invariant stores.Keys == s0.Keys
      {
        assert InGroup(targets[n].key, targets[n].replica, stores.Keys);
        OwnCopyUntouched(s0, targets, n, deliver);
        ClearStep(t0, pending, s0[node], clock, deliver, targets, n);
        DeliverStep(s0, stores, s0[node], clock, deliver, targets, n);
        RetryTarget(targets[n], s0[node], deliver(targets[n].key, targets[n].replica));
      }
    }

    /** One target: forget it if the key is gone, otherwise send the current copy and forget it on a reply. */
    method RetryTarget(t: Target, ghost items: Items, outcome: Outcome)
      requires node in stores && InGroup(t.key, t.replica, stores.Keys) && SameCopy(items, stores[node], t.key)
      modifies this`stores, this`pending
      ensures pending == if !Live(items, t.key, clock) || outcome.Replied?
              then Forgotten(old(pending), t.key, t.replica) else old(pending)
      ensures stores == if Live(items, t.key, clock) && !outcome.Lost?
                        then old(stores)[t.replica := Resent(old(stores), items, t.key, t.replica)] else old(stores)
    {
      var copy := Fetch(stores[node], t.key, clock);
      if copy.None? {
        pending := Forgotten(pending, t.key, t.replica);
      } else {
        var sent := ReplicateToReplica(t.key, copy.value.value, copy.value.expiresAt, t.replica, outcome);
        if sent {
          pending := Forgotten(pending, t.key, t.replica);
        }
      }
    }

    /** Sending does not change what the primary itself holds, and no pair is sent twice. */
    lemma OwnCopyUntouched(s0: Stores, targets: seq<Target>, n: nat, deliver: (string, string) -> Outcome)
      requires n < |targets| && node in s0 && Delivered(s0, stores, s0[node], clock, deliver, targets, n)
               && Aimed(targets, stores.Keys)
      ensures SameCopy(s0[node], stores[node], targets[n].key)
      ensures !Among(targets, n, targets[n].key, targets[n].replica)
    {
      var k := targets[n].key;
      assert CopyAfter(s0[node], stores[node], s0[node], k, Arrived(s0[node], clock, deliver, targets, n, k, node));
      forall i | 0 <= i < n ensures !(targets[i].key == k && targets[i].replica == node) {
        assert InGroup(targets[i].key, targets[i].replica, stores.Keys);
      }
      forall i | 0 <= i < n ensures !(targets[i].key == k && targets[i].replica == targets[n].replica) {
        assert EntryOf(targets[i]) != EntryOf(targets[n]);
      }
    }

    /** `replicateToReplica`: only a node the ring still lists as a replica is sent anything. */
    method ReplicateToReplica(key: string, value: string, expiresAt: Time, replicaID: string, outcome: Outcome)
      returns (ok: bool)
      requires replicaID in stores && placement.group(key) != [] && Distinct(placement.group(key))
      modifies this`stores
      ensures ok <==> IsReplica(placement.group(key), replicaID) && outcome.Replied?
      ensures stores == if IsReplica(placement.group(key), replicaID) && !outcome.Lost?
                        then old(stores)[replicaID := Received(old(stores)[replicaID], key, value, expiresAt)]
                          else old(stores)
    {
      var group := placement.group(key);
      for i := 1 to |group|
        invariant stores == old(stores) && !Reached(group, i, replicaID)
      {
        if group[i] == replicaID {
          if !outcome.Lost? {
            stores := stores[replicaID := Received(stores[replicaID], key, value, expiresAt)];
          }
          return outcome.Replied?;
        }
      }
      ReachedAll(group, replicaID);
      return false;
    }
  }
}
