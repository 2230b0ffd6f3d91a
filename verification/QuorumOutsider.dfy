/**
  For which readers quorum reads are fresh. A reader outside a key's group also counts its own copy;
  in a group of odd size that vote can complete a majority of stale replicas, and in every such group
  there is a run in which it does.
 */
module QuorumOutsider {
  import opened Lists
  import opened Expiry
  import opened StoreSpec
  import opened Topology
  import opened Quorum
  import opened QuorumSafety

  // ---------- Runs without expiries are undisturbed ----------

  predicate NoExpiry(a: Action) {
    (a.PlainWrite? ==> a.expiresAt == NEVER) && (a.BeginWrite? ==> a.ttl <= 0)
  }

  ghost predicate Eternal(s: State) {
    && (forall n <- s.stores, k <- s.stores[n] :: s.stores[n][k].expiresAt == NEVER)
    && (forall id <- s.writes :: s.writes[id].expiresAt == NEVER)
  }

  lemma StepEternal(p: Placement, s: State, a: Action)
    requires Enabled(p, s, a) && NoExpiry(a) && Eternal(s)
    ensures Eternal(Next(p, s, a))
  {
    HopIsFloor(NEVER);
    var t := Next(p, s, a);
    forall n <- t.stores, k <- t.stores[n] ensures t.stores[n][k].expiresAt == NEVER {
      assert n in s.stores;
    }
  }

  lemma {:induction false} RunEternal(p: Placement, s: State, actions: seq<Action>)
    requires Eternal(s) && forall a <- actions :: NoExpiry(a)
    ensures Eternal(Run(p, s, actions))
  {
    if actions != [] {
      var init, a := actions[..|actions| - 1], actions[|actions| - 1];
      assert a in actions && forall b <- init :: b in actions;
      RunEternal(p, s, init);
      if Enabled(p, Run(p, s, init), a) {
        StepEternal(p, Run(p, s, init), a);
      }
    }
  }

  lemma EternalRunUndisturbed(p: Placement, s: State, actions: seq<Action>, key: string)
    requires Eternal(s) && forall a <- actions :: NoExpiry(a) && Spares(a, key)
    ensures Undisturbed(p, s, actions, key)
  {
    forall i | 0 <= i <= |actions| ensures Unexpired(Run(p, s, actions[..i]), key) {
      assert forall a <- actions[..i] :: a in actions;
      RunEternal(p, s, actions[..i]);
    }
  }

  /** Some run without expiries, deletions or wipes leads from `s` to `t`. */
  ghost predicate Reaches(p: Placement, s: State, t: State, key: string) {
    exists actions :: ReachesBy(p, s, t, key, actions)
  }

  ghost predicate ReachesBy(p: Placement, s: State, t: State, key: string, actions: seq<Action>) {
    Run(p, s, actions) == t && forall a <- actions :: NoExpiry(a) && Spares(a, key)
  }

  lemma ReachesStep(p: Placement, s: State, t: State, key: string, a: Action)
    requires Reaches(p, s, t, key) && Enabled(p, t, a) && NoExpiry(a) && Spares(a, key)
    ensures Reaches(p, s, Next(p, t, a), key)
  {
    var actions :| ReachesBy(p, s, t, key, actions);
    assert (actions + [a])[..|actions|] == actions;
    assert ReachesBy(p, s, Next(p, t, a), key, actions + [a]);
  }

  // ---------- The write ----------

  const OLD := Item("old", NEVER, 1)
  const NEW := Item("new", NEVER, 2)

  /** Every member and the reader hold the old copy. */
  function OldStores(key: string, group: seq<string>, reader: string): map<string, Items> {
    map n | n in ElementsOf(group) + {reader} :: map[key := OLD]
  }

  /** The first `updated` members of the group have the new copy. */
  ghost predicate StoresAre(s: State, key: string, group: seq<string>, reader: string, updated: nat) {
    && reader in s.stores && s.stores[reader] == map[key := OLD]
    && forall j :: 0 <= j < |group| ==>
         group[j] in s.stores && s.stores[group[j]] == map[key := if j < updated then NEW else OLD]
  }

  /** The write asks member `i` next; the first `half` replicas have acknowledged as far as they were asked. */
  ghost predicate Asked(s: State, key: string, group: seq<string>, reader: string, half: nat, i: nat) {
    && s.clock == 0 && s.queries == map[] && s.acked == [] && 1 <= i <= |group|
    && StoresAre(s, key, group, reader, Lesser(i, half + 1))
    && s.writes.Keys == {0}
    && s.writes[0] == Write(key, "new", NEVER, 2, Sending(i), s.writes[0].acks)
    && s.writes[0].acks == ElementsOf(group[1..Lesser(i, half + 1)])
  }

  function Lesser(a: int, b: int): int {
    if a < b then a else b
  }

  lemma WriteStarts(p: Placement, key: string, reader: string, half: nat) returns (s: State)
    requires p.Proper(key) && reader !in p.group(key)
    ensures Reaches(p, Init(OldStores(key, p.group(key), reader), 0), s, key)
    ensures Asked(s, key, p.group(key), reader, half, 1)
  {
    var group := p.group(key);
    var s0 := Init(OldStores(key, group, reader), 0);
    assert group[0] in ElementsOf(group) && forall j :: 0 <= j < |group| ==> group[j] in ElementsOf(group);
    assert Run(p, s0, []) == s0;
    assert ReachesBy(p, s0, s0, key, []);
    ReachesStep(p, s0, s0, key, BeginWrite(0, key, "new", 0));
    var s1 := Begun(p, s0, 0, key, "new", 0);
    assert s1.writes[0] == Write(key, "new", NEVER, 2, VersionRead, {});
    ReachesStep(p, s0, s1, key, LocalWrite(0));
    s := WrittenLocally(p, s1, 0);
    assert map[key := OLD][key := NEW] == map[key := NEW];
    assert group[1..1] == [];
  }

  lemma VersionedNew(key: string)
    ensures Versioned(map[key := OLD], key, Item("new", Hop(NEVER), 2)) == map[key := NEW]
  {
    HopIsFloor(NEVER);
  }

  /** A replica acknowledges. */
  lemma CallAnswered(p: Placement, s0: State, s: State, key: string, reader: string, half: nat, i: nat)
    returns (t: State)
    requires p.Proper(key) && reader !in p.group(key) && Reaches(p, s0, s, key)
    requires Asked(s, key, p.group(key), reader, half, i) && i < |p.group(key)| && i <= half
    ensures Reaches(p, s0, t, key) && Asked(t, key, p.group(key), reader, half, i + 1)
  {
    var group := p.group(key);
    ReachesStep(p, s0, s, key, Send(0));
    var sent := Requested(p, s, 0);
    ReachesStep(p, s0, sent, key, Deliver(0, group[i]));
    var delivered := DeliveredTo(sent, 0, group[i]);
    VersionedNew(key);
    ReachesStep(p, s0, delivered, key, Ack(0));
    t := Acknowledged(p, delivered, 0);
    assert group[1..i + 1] == group[1..i] + [group[i]];
  }

  /** The request to a replica is lost. */
  lemma CallLost(p: Placement, s0: State, s: State, key: string, reader: string, half: nat, i: nat) returns (t: State)
    requires p.Proper(key) && reader !in p.group(key) && Reaches(p, s0, s, key)
    requires Asked(s, key, p.group(key), reader, half, i) && half < i < |p.group(key)|
    ensures Reaches(p, s0, t, key) && Asked(t, key, p.group(key), reader, half, i + 1)
  {
    ReachesStep(p, s0, s, key, Send(0));
    var sent := Requested(p, s, 0);
    ReachesStep(p, s0, sent, key, GiveUp(0));
    t := GivenUp(sent, 0);
  }

  lemma {:induction false} WriteCalls(p: Placement, key: string, reader: string, half: nat, i: nat) returns (s: State)
    requires p.Proper(key) && reader !in p.group(key) && 1 <= i <= |p.group(key)|
    ensures Reaches(p, Init(OldStores(key, p.group(key), reader), 0), s, key)
    ensures Asked(s, key, p.group(key), reader, half, i)
  {
    if i == 1 {
      s := WriteStarts(p, key, reader, half);
    } else {
      s := WriteCalls(p, key, reader, half, i - 1);
      var s0 := Init(OldStores(key, p.group(key), reader), 0);
      if i - 1 <= half {
        s := CallAnswered(p, s0, s, key, reader, half, i - 1);
      } else {
        s := CallLost(p, s0, s, key, reader, half, i - 1);
      }
    }
  }

  /** The write is acknowledged at version 2 by the primary and `half` replicas; the rest is stale. */
  ghost predicate HalfWritten(s: State, key: string, group: seq<string>, reader: string, half: nat) {
    && s.clock == 0 && StoresAre(s, key, group, reader, half + 1)
    && |s.acked| == 1 && s.acked[0].key == key && s.acked[0].version == 2
  }

  lemma WriteAcknowledged(p: Placement, key: string, reader: string) returns (s: State)
    requires p.Proper(key) && reader !in p.group(key) && |p.group(key)| % 2 == 1
    ensures Reaches(p, Init(OldStores(key, p.group(key), reader), 0), s, key)
    ensures HalfWritten(s, key, p.group(key), reader, |p.group(key)| / 2) && s.queries == map[]
  {
    var group, half := p.group(key), |p.group(key)| / 2;
    var t := WriteCalls(p, key, reader, half, |group|);
    DistinctSlice(group, half + 1);
    DistinctLength(group[1..half + 1], ElementsOf(group[1..half + 1]));
    ReachesStep(p, Init(OldStores(key, group, reader), 0), t, key, AnswerWrite(0));
    s := AnsweredWrite(p, t, 0);
  }

  lemma DistinctSlice(group: seq<string>, n: nat)
    requires Distinct(group) && 1 <= n <= |group|
    ensures Distinct(group[1..n])
  {
  }

  // ---------- The read ----------

  /** The reader has been through `j` members; only stale ones were reached. */
  ghost predicate Polling(s: State, key: string, group: seq<string>, reader: string, half: nat, j: nat) {
    && HalfWritten(s, key, group, reader, half) && s.queries.Keys == {0}
    && var r := s.queries[0];
       && r.key == key && r.reader == reader && r.seen == 1 && r.next == j && r.answer.None?
       && |r.responses| == 1 + (if Lesser(j, |group| - 1) <= half then 0 else Lesser(j, |group| - 1) - half)
       && forall x <- r.responses :: x.item == OLD
  }

  lemma ReadStarts(p: Placement, s0: State, s: State, key: string, reader: string, half: nat) returns (t: State)
    requires p.Proper(key) && Reaches(p, s0, s, key) && HalfWritten(s, key, p.group(key), reader, half)
             && s.queries == map[]
    ensures Reaches(p, s0, t, key) && Polling(t, key, p.group(key), reader, half, 0)
  {
    ReachesStep(p, s0, s, key, BeginRead(0, reader, key));
    t := Next(p, s, BeginRead(0, reader, key));
    assert LocalResponse(s, reader, key) == [Response(reader, OLD)];
  }

  /** The next member, reached exactly if it is a stale replica. */
  lemma PollStep(p: Placement, s0: State, s: State, key: string, reader: string, half: nat, j: nat) returns (t: State)
    requires p.Proper(key) && reader !in p.group(key) && Reaches(p, s0, s, key)
    requires Polling(s, key, p.group(key), reader, half, j) && j < |Members(p.group(key))|
    ensures Reaches(p, s0, t, key) && Polling(t, key, p.group(key), reader, half, j + 1)
  {
    var group := p.group(key);
    var reached := half <= j < |group| - 1;
    ReachesStep(p, s0, s, key, Poll(0, reached));
    t := Polled(p, s, 0, reached);
    if reached {
      assert Members(group)[j] == group[j + 1];
      assert LocalResponse(s, group[j + 1], key) == [Response(group[j + 1], OLD)];
    }
  }

  lemma {:induction false} Polls(p: Placement, s0: State, s: State, key: string, reader: string, half: nat, j: nat)
    returns (t: State)
    requires p.Proper(key) && reader !in p.group(key) && Reaches(p, s0, s, key)
    requires Polling(s, key, p.group(key), reader, half, 0) && j <= |Members(p.group(key))|
    ensures Reaches(p, s0, t, key) && Polling(t, key, p.group(key), reader, half, j)
  {
    if j == 0 {
      t := s;
    } else {
      t := Polls(p, s0, s, key, reader, half, j - 1);
      t := PollStep(p, s0, t, key, reader, half, j - 1);
    }
  }

  lemma ReadAnswered(p: Placement, s0: State, s: State, key: string, reader: string) returns (t: State)
    requires p.Proper(key) && Reaches(p, s0, s, key) && |p.group(key)| % 2 == 1
    requires Polling(s, key, p.group(key), reader, |p.group(key)| / 2, |Members(p.group(key))|)
    ensures Reaches(p, s0, t, key) && Concerns(t, key, reader, 0, 0)
    ensures t.queries[0].answer.value.item.version < t.acked[0].version
  {
    ReachesStep(p, s0, s, key, AnswerRead(0));
    t := AnsweredRead(p, s, 0);
    BestIsNewest(s.queries[0].responses);
  }

  // ---------- Which readers are safe ----------

  /** Query `id` of this reader was answered with 200 and began after write `i` was acknowledged. */
  ghost predicate Concerns(s: State, key: string, reader: string, id: nat, i: nat) {
    && id in s.queries && s.queries[id].key == key && s.queries[id].reader == reader && s.queries[id].answer.Some?
    && i < |s.acked| && i < s.queries[id].seen && s.acked[i].key == key
  }

  /** In every undisturbed run this reader sees the acknowledged write or a newer one. */
  ghost predicate AlwaysFresh(p: Placement, key: string, reader: string) {
    forall stores: map<string, Items>, clock: Time, actions: seq<Action>, id: nat, i: nat ::
      Undisturbed(p, Init(stores, clock), actions, key)
        && Concerns(Run(p, Init(stores, clock), actions), key, reader, id, i) ==>
        Run(p, Init(stores, clock), actions).queries[id].answer.value.item.version
          >= Run(p, Init(stores, clock), actions).acked[i].version
  }

  /** In a group of odd size every outsider gets a stale answer in some undisturbed run. */
  lemma OutsiderReadsStale(p: Placement, key: string, reader: string)
    requires p.Proper(key) && reader !in p.group(key) && |p.group(key)| % 2 == 1
    ensures !AlwaysFresh(p, key, reader)
  {
    var stores := OldStores(key, p.group(key), reader);
    var s := WriteAcknowledged(p, key, reader);
    s := ReadStarts(p, Init(stores, 0), s, key, reader, |p.group(key)| / 2);
    s := Polls(p, Init(stores, 0), s, key, reader, |p.group(key)| / 2, |Members(p.group(key))|);
    s := ReadAnswered(p, Init(stores, 0), s, key, reader);
    var actions :| ReachesBy(p, Init(stores, 0), s, key, actions);
    EternalRunUndisturbed(p, Init(stores, 0), actions, key);
    assert Concerns(Run(p, Init(stores, 0), actions), key, reader, 0, 0);
  }

  /** Quorum reads are fresh in all undisturbed runs exactly for readers in the group, or if the group has even size. */
  lemma QuorumReadsFreshIff(p: Placement, key: string, reader: string)
    requires p.Proper(key)
    ensures AlwaysFresh(p, key, reader) <==> reader in p.group(key) || |p.group(key)| % 2 == 0
  {
    if reader in p.group(key) || |p.group(key)| % 2 == 0 {
      forall stores: map<string, Items>, clock: Time, actions: seq<Action>, id: nat, i: nat
        | Undisturbed(p, Init(stores, clock), actions, key)
          && Concerns(Run(p, Init(stores, clock), actions), key, reader, id, i)
        ensures Run(p, Init(stores, clock), actions).queries[id].answer.value.item.version
                >= Run(p, Init(stores, clock), actions).acked[i].version
      {
        QuorumReadSeesAckedWrite(p, stores, clock, actions, key, id, i);
      }
    } else {
      OutsiderReadsStale(p, key, reader);
    }
  }

  // ---------- Readers without a copy ----------

  /** The query of a reader that held no copy when it began. */
  ghost predicate NoOwnVote(s: State, id: nat, key: string, reader: string) {
    && id in s.queries && s.queries[id].key == key && s.queries[id].reader == reader
    && forall x <- s.queries[id].responses :: x.node != reader
  }

  lemma StepKeepsNoOwnVote(p: Placement, s: State, a: Action, id: nat, key: string, reader: string)
    requires Enabled(p, s, a) && NoOwnVote(s, id, key, reader)
    ensures NoOwnVote(Next(p, s, a), id, key, reader)
  {
  }

  lemma {:induction false} NoOwnVoteStays(p: Placement, s0: State, before: seq<Action>, after: seq<Action>, id: nat,
                                          key: string, reader: string)
    requires NoOwnVote(Run(p, s0, before), id, key, reader)
    ensures NoOwnVote(Run(p, s0, before + after), id, key, reader)
  {
    if after == [] {
      assert before + after == before;
    } else {
      var init, a := after[..|after| - 1], after[|after| - 1];
      NoOwnVoteStays(p, s0, before, init, id, key, reader);
      assert (before + after)[..|before + after| - 1] == before + init;
      var s := Run(p, s0, before + init);
      assert Run(p, s0, before + after) == if Enabled(p, s, a) then Next(p, s, a) else s;
      if Enabled(p, s, a) {
        StepKeepsNoOwnVote(p, s, a, id, key, reader);
      }
    }
  }

  /** Any reader that holds no unexpired copy when its read begins sees the acknowledged write or a newer one. */
  lemma ReaderWithoutCopyIsFresh(p: Placement, stores: map<string, Items>, clock: Time, before: seq<Action>,
                                 after: seq<Action>,
                                 key: string, reader: string, id: nat, i: nat)
    requires p.Proper(key) && Undisturbed(p, Init(stores, clock), before + [BeginRead(id, reader, key)] + after, key)
    requires var s := Run(p, Init(stores, clock), before); id !in s.queries && LocalResponse(s, reader, key) == []
    requires Concerns(Run(p, Init(stores, clock), before + [BeginRead(id, reader, key)] + after), key, reader, id, i)
    ensures var s := Run(p, Init(stores, clock), before + [BeginRead(id, reader, key)] + after);
            s.queries[id].answer.value.item.version >= s.acked[i].version
  {
    var begin, s0 := BeginRead(id, reader, key), Init(stores, clock);
    assert (before + [begin])[..|before|] == before;
    assert NoOwnVote(Run(p, s0, before + [begin]), id, key, reader);
    NoOwnVoteStays(p, s0, before + [begin], after, id, key, reader);
    QuorumReadSeesAckedWrite(p, stores, clock, before + [begin] + after, key, id, i);
  }
}
