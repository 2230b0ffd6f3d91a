/**
  The quorum handlers as loops over the replicas, with their own counters and their effect on the
  stores. Each handler is shown to be one schedule of the steps of `Quorum`: the stores agree after
  every call and the counters count the acknowledgements, so what is proved about all runs holds of it.
 */
module QuorumHandlers {
  import opened Lists
  import opened Expiry
  import opened StoreSpec
  import opened Topology
  import opened Quorum

  datatype Status = Ok | NotFound | Unavailable

  lemma RunAppended(p: Placement, s: State, actions: seq<Action>, a: Action)
    ensures Run(p, s, []) == s
    ensures var before := Run(p, s, actions);
            Run(p, s, actions + [a]) == if Enabled(p, before, a) then Next(p, before, a) else before
  {
    assert (actions + [a])[..|actions|] == actions;
  }

  /** The first response with the highest version, by a running best. */
  method BestResponse(responses: seq<Response>) returns (best: Response)
    requires responses != []
    ensures best == Best(responses)
    ensures best in responses && forall x <- responses :: x.item.version <= best.item.version
    ensures exists i :: 0 <= i < |responses| && responses[i] == best
                        && forall j :: 0 <= j < i ==> responses[j].item.version < best.item.version
  {
    best := responses[0];
    ghost var at := 0;
    assert responses[..1] == [responses[0]];
    for i := 1 to |responses|
      invariant best == Best(responses[..i])
      invariant 0 <= at < i && responses[at] == best
      invariant forall j :: 0 <= j < at ==> responses[j].item.version < best.item.version
      invariant forall j :: 0 <= j < i ==> responses[j].item.version <= best.item.version
    {
      assert responses[..i + 1][..i] == responses[..i];
      if responses[i].item.version > best.item.version {
        best := responses[i];
        at := i;
      }
    }
    assert responses[..|responses|] == responses;
  }

  /** The write is about to ask member `i`, with `acks` replies so far, all from earlier members. */
  ghost predicate Asking(p: Placement, s: State, id: nat, key: string, version: int, i: nat, acks: nat) {
    && id in s.writes && s.writes[id].phase == Sending(i)
    && s.writes[id].key == key && s.writes[id].version == version
    && |s.writes[id].acks| == acks && 1 <= i <= |p.group(key)|
    && forall j :: i <= j < |p.group(key)| ==> p.group(key)[j] !in s.writes[id].acks
  }

  /** The cluster after one call with the given outcome. */
  function Called(p: Placement, s: State, id: nat, outcome: Outcome): State
    requires id in s.writes && s.writes[id].phase.Sending? && s.writes[id].phase.next < |p.group(s.writes[id].key)|
  {
    var node := p.group(s.writes[id].key)[s.writes[id].phase.next];
    var a := Requested(p, s, id);
    var b := if outcome.Lost? then a else DeliveredTo(a, id, node);
    if outcome.Replied? then Acknowledged(p, b, id) else GivenUp(b, id)
  }

  function CallSteps(id: nat, node: string, outcome: Outcome): seq<Action> {
    match outcome
    case Lost => [Send(id), GiveUp(id)]
    case Unanswered => [Send(id), Deliver(id, node), GiveUp(id)]
    case Replied => [Send(id), Deliver(id, node), Ack(id)]
  }

  lemma StartIsRun(p: Placement, s0: State, id: nat, key: string, value: string, ttl: int)
    requires p.Proper(key) && id !in s0.writes && p.Primary(key) in s0.stores
    ensures var s := WrittenLocally(p, Begun(p, s0, id, key, value, ttl), id);
            && Run(p, s0, [BeginWrite(id, key, value, ttl), LocalWrite(id)]) == s
            && Asking(p, s, id, key, s.writes[id].version, 1, 0)
            && s.stores.Keys == s0.stores.Keys && s.acked == s0.acked
  {
    var begin := BeginWrite(id, key, value, ttl);
    RunAppended(p, s0, [], begin);
    assert [] + [begin] == [begin];
    RunAppended(p, s0, [begin], LocalWrite(id));
    assert [begin] + [LocalWrite(id)] == [begin, LocalWrite(id)];
  }

  lemma CallIsRun(p: Placement, s0: State, script: seq<Action>, s: State, id: nat, key: string, i: nat,
                  outcome: Outcome)
    requires p.Proper(key) && i < |p.group(key)| && p.group(key)[i] in s.stores
    requires s == Run(p, s0, script) && id in s.writes && s.writes[id].key == key && s.writes[id].phase == Sending(i)
    ensures Run(p, s0, script + CallSteps(id, p.group(key)[i], outcome)) == Called(p, s, id, outcome)
  {
    var node := p.group(key)[i];
    var one, sent := script + [Send(id)], Requested(p, s, id);
    SendIsRun(p, s0, script, s, id);
    assert sent.writes[id] == s.writes[id].(phase := Waiting(i));
    if outcome.Lost? {
      GiveUpIsRun(p, s0, one, sent, id);
      assert script + CallSteps(id, node, outcome) == one + [GiveUp(id)];
    } else {
      ArrivalIsRun(p, s0, one, sent, id, key, i, outcome.Replied?);
      assert script + CallSteps(id, node, outcome) == one + [Deliver(id, node)]
        + [if outcome.Replied? then Ack(id) else GiveUp(id)];
    }
  }

  /** A request that arrives, and its reply or the loss of it. */
  lemma ArrivalIsRun(p: Placement, s0: State, script: seq<Action>, s: State, id: nat, key: string, i: nat,
                     replied: bool)
    requires p.Proper(key) && i < |p.group(key)| && p.group(key)[i] in s.stores && (id, p.group(key)[i]) in s.sent
    requires s == Run(p, s0, script) && id in s.writes && s.writes[id].key == key && s.writes[id].phase == Waiting(i)
    ensures var node := p.group(key)[i]; var t := DeliveredTo(s, id, node);
            && id in t.writes && t.writes[id] == s.writes[id]
            && Run(p, s0, script + [Deliver(id, node)] + [if replied then Ack(id) else GiveUp(id)])
               == if replied then Acknowledged(p, t, id) else GivenUp(t, id)
  {
    var node := p.group(key)[i];
    var t := DeliveredTo(s, id, node);
    DeliverIsRun(p, s0, script, s, id, node);
    if replied {
      AckIsRun(p, s0, script + [Deliver(id, node)], t, id);
    } else {
      GiveUpIsRun(p, s0, script + [Deliver(id, node)], t, id);
    }
  }

  lemma SendIsRun(p: Placement, s0: State, script: seq<Action>, s: State, id: nat)
    requires s == Run(p, s0, script) && Enabled(p, s, Send(id))
    ensures Run(p, s0, script + [Send(id)]) == Requested(p, s, id)
  {
    RunAppended(p, s0, script, Send(id));
  }

  lemma DeliverIsRun(p: Placement, s0: State, script: seq<Action>, s: State, id: nat, node: string)
    requires s == Run(p, s0, script) && Enabled(p, s, Deliver(id, node))
    ensures Run(p, s0, script + [Deliver(id, node)]) == DeliveredTo(s, id, node)
  {
    RunAppended(p, s0, script, Deliver(id, node));
  }

  lemma AckIsRun(p: Placement, s0: State, script: seq<Action>, s: State, id: nat)
    requires s == Run(p, s0, script) && Enabled(p, s, Ack(id))
    ensures Run(p, s0, script + [Ack(id)]) == Acknowledged(p, s, id)
  {
    RunAppended(p, s0, script, Ack(id));
  }

  lemma GiveUpIsRun(p: Placement, s0: State, script: seq<Action>, s: State, id: nat)
    requires s == Run(p, s0, script) && Enabled(p, s, GiveUp(id))
    ensures Run(p, s0, script + [GiveUp(id)]) == GivenUp(s, id)
  {
    RunAppended(p, s0, script, GiveUp(id));
  }

  /** The answer: 200 and an entry in the history exactly when a majority acknowledged. */
  lemma AnswerIsRun(p: Placement, s0: State, script: seq<Action>, s: State, id: nat, key: string, version: int,
                    acks: nat)
    requires p.Proper(key) && s == Run(p, s0, script) && Asking(p, s, id, key, version, |p.group(key)|, acks)
    ensures var t := AnsweredWrite(p, s, id); var ok := acks + 1 >= Majority(|p.group(key)|);
            && Run(p, s0, script + [AnswerWrite(id)]) == t
            && id in t.writes && t.writes[id] == s.writes[id].(phase := Finished(ok))
            && (ok ==> |t.acked| > 0 && t.acked[|t.acked| - 1].id == id)
            && (!ok ==> t.acked == s.acked)
  {
    RunAppended(p, s0, script, AnswerWrite(id));
  }

  lemma CallCounts(p: Placement, s: State, id: nat, key: string, version: int, i: nat, acks: nat, outcome: Outcome)
    requires p.Proper(key) && i < |p.group(key)| && Asking(p, s, id, key, version, i, acks)
    ensures var t := Called(p, s, id, outcome);
            && Asking(p, t, id, key, version, i + 1, acks + if outcome.Replied? then 1 else 0)
            && t.stores.Keys == s.stores.Keys && t.acked == s.acked
  {
    var a := Requested(p, s, id);
    assert a.writes[id] == s.writes[id].(phase := Waiting(i));
    if outcome.Lost? {
      ReplyCounts(p, s, a, id, key, version, i, acks, false);
    } else {
      var b := DeliveredTo(a, id, p.group(key)[i]);
      DeliveryKeepsWrites(a, id, p.group(key)[i]);
      ReplyCounts(p, s, b, id, key, version, i, acks, outcome.Replied?);
    }
  }

  lemma DeliveryKeepsWrites(s: State, id: nat, node: string)
    requires id in s.writes
    ensures var t := DeliveredTo(s, id, node);
            t.writes == s.writes && t.stores.Keys == s.stores.Keys && t.acked == s.acked
  {
  }

  lemma ReplyCounts(p: Placement, s: State, t: State, id: nat, key: string, version: int, i: nat, acks: nat,
                    replied: bool)
    requires p.Proper(key) && i < |p.group(key)| && Asking(p, s, id, key, version, i, acks)
    requires id in t.writes && t.writes[id] == s.writes[id].(phase := Waiting(i))
    ensures replied ==> Asking(p, Acknowledged(p, t, id), id, key, version, i + 1, acks + 1)
                        && Acknowledged(p, t, id).stores == t.stores && Acknowledged(p, t, id).acked == t.acked
    ensures !replied ==> Asking(p, GivenUp(t, id), id, key, version, i + 1, acks)
                         && GivenUp(t, id).stores == t.stores && GivenUp(t, id).acked == t.acked
  {
    var group, w := p.group(key), s.writes[id];
    assert forall j :: i < j < |group| ==> group[j] != group[i];
    assert group[i] !in w.acks;
  }

  /** The write stores and sends this value, expiry and version. */
  predicate WriteIs(s: State, id: nat, key: string, item: Item) {
    && id in s.writes && s.writes[id].key == key && s.writes[id].value == item.value
    && s.writes[id].expiresAt == item.expiresAt && s.writes[id].version == item.version
  }

  /** What the primary stores for a write that begins in `s`. */
  function Chosen(p: Placement, s: State, key: string, value: string, ttl: int): Item
    requires p.Proper(key) && p.Primary(key) in s.stores
  {
    Item(value, Deadline(ttl, s.clock), ChosenVersion(s.stores[p.Primary(key)], key, s.clock))
  }

  lemma StartStores(p: Placement, s0: State, id: nat, key: string, value: string, ttl: int)
    requires p.Proper(key) && id !in s0.writes && p.Primary(key) in s0.stores
    ensures var s, item := WrittenLocally(p, Begun(p, s0, id, key, value, ttl), id), Chosen(p, s0, key, value, ttl);
            && WriteIs(s, id, key, item) && s.clock == s0.clock
            && s.stores == s0.stores[p.Primary(key) := Versioned(s0.stores[p.Primary(key)], key, item)]
  {
  }

  lemma CallStores(p: Placement, s: State, id: nat, key: string, item: Item, i: nat, outcome: Outcome)
    requires p.Proper(key) && i < |p.group(key)| && p.group(key)[i] in s.stores
    requires WriteIs(s, id, key, item) && s.writes[id].phase == Sending(i)
    ensures var t, node := Called(p, s, id, outcome), p.group(key)[i];
            && WriteIs(t, id, key, item) && t.clock == s.clock
            && t.stores == if outcome.Lost? then s.stores
               else s.stores[node := Versioned(s.stores[node], key, Relayed(item))]
  {
  }

  /** The steps a handler has taken from `start`, and the state they lead to. */
  datatype Trail = Trail(p: Placement, start: State, script: seq<Action>, now: State)
  {
    ghost predicate Valid() {
      now == Run(p, start, script)
    }
  }

  /** The handler before it asks member `i`: its stores and counter agree with the run so far. */
  ghost predicate InStep(t: Trail, stores: map<string, Items>, clock: Time, id: nat, key: string, item: Item, i: nat,
                         acks: nat) {
    && t.Valid() && t.now.stores == stores && t.now.clock == clock && t.now.acked == t.start.acked
    && stores.Keys == t.start.stores.Keys
    && Asking(t.p, t.now, id, key, item.version, i, acks) && WriteIs(t.now, id, key, item)
  }

  lemma InStepStarts(p: Placement, s0: State, id: nat, key: string, value: string, ttl: int, stores: map<string, Items>)
    returns (s: State)
    requires p.Proper(key) && id !in s0.writes && p.Primary(key) in s0.stores
    requires stores == s0.stores[p.Primary(key) := Versioned(s0.stores[p.Primary(key)], key,
                                                             Chosen(p, s0, key, value, ttl))]
    ensures InStep(Trail(p, s0, [BeginWrite(id, key, value, ttl), LocalWrite(id)], s), stores, s0.clock,
                   id, key, Chosen(p, s0, key, value, ttl), 1, 0)
  {
    StartIsRun(p, s0, id, key, value, ttl);
    StartStores(p, s0, id, key, value, ttl);
    s := WrittenLocally(p, Begun(p, s0, id, key, value, ttl), id);
  }

  lemma InStepNext(t: Trail, stores: map<string, Items>, stores': map<string, Items>, clock: Time, id: nat, key: string,
                   item: Item, i: nat, acks: nat, outcome: Outcome) returns (s: State)
    requires InStep(t, stores, clock, id, key, item, i, acks)
    requires t.p.Proper(key) && i < |t.p.group(key)| && t.p.group(key)[i] in stores
    requires var node := t.p.group(key)[i];
             stores' == if outcome.Lost? then stores else stores[node := Versioned(stores[node], key, Relayed(item))]
    ensures InStep(Trail(t.p, t.start, t.script + CallSteps(id, t.p.group(key)[i], outcome), s), stores', clock,
                   id, key, item, i + 1, acks + if outcome.Replied? then 1 else 0)
  {
    CallIsRun(t.p, t.start, t.script, t.now, id, key, i, outcome);
    CallCounts(t.p, t.now, id, key, item.version, i, acks, outcome);
    CallStores(t.p, t.now, id, key, item, i, outcome);
    s := Called(t.p, t.now, id, outcome);
  }

  lemma InStepEnds(t: Trail, stores: map<string, Items>, clock: Time, id: nat, key: string, item: Item, acks: nat)
    returns (s: State)
    requires t.p.Proper(key) && InStep(t, stores, clock, id, key, item, |t.p.group(key)|, acks)
    ensures var ok := acks + 1 >= Majority(|t.p.group(key)|);
            && s == Run(t.p, t.start, t.script + [AnswerWrite(id)]) && s.stores == stores && s.clock == clock
            && WriteIs(s, id, key, item) && |s.writes[id].acks| == acks
            && s.acked == t.start.acked
                          + if ok then [Acked(id, key, item.version, s.writes[id].acks + {t.p.group(key)[0]})] else []
  {
    AnswerIsRun(t.p, t.start, t.script, t.now, id, key, item.version, acks);
    s := AnsweredWrite(t.p, t.now, id);
  }

  /** The read before it asks member `i`, with the responses so far. */
  ghost predicate InRead(t: Trail, stores: map<string, Items>, clock: Time, id: nat, reader: string, key: string,
                         i: nat, responses: seq<Response>) {
    && t.Valid() && t.now.stores == stores && t.now.clock == clock
    && id in t.now.queries && t.now.queries[id] == Read(key, reader, |t.start.acked|, i, responses, None)
  }

  /** What the node contributes to a read. */
  function Vote(stores: map<string, Items>, node: string, key: string, now: Time): seq<Response> {
    if node in stores && Live(stores[node], key, now) then [Response(node, stores[node][key])] else []
  }

  lemma InReadStarts(p: Placement, s0: State, id: nat, reader: string, key: string) returns (s: State)
    requires p.Proper(key) && id !in s0.queries
    ensures InRead(Trail(p, s0, [BeginRead(id, reader, key)], s), s0.stores, s0.clock, id, reader, key, 0,
                   Vote(s0.stores, reader, key, s0.clock))
  {
    RunAppended(p, s0, [], BeginRead(id, reader, key));
    assert [] + [BeginRead(id, reader, key)] == [BeginRead(id, reader, key)];
    s := Next(p, s0, BeginRead(id, reader, key));
  }

  lemma InReadNext(t: Trail, stores: map<string, Items>, clock: Time, id: nat, reader: string, key: string,
                   i: nat, responses: seq<Response>, reached: bool) returns (s: State)
    requires InRead(t, stores, clock, id, reader, key, i, responses) && t.p.Proper(key) && i < |Members(t.p.group(key))|
    ensures var node := Members(t.p.group(key))[i];
            InRead(Trail(t.p, t.start, t.script + [Poll(id, reached)], s), stores, clock, id, reader, key, i + 1,
                   responses + if reached && node != reader then Vote(stores, node, key, clock) else [])
  {
    RunAppended(t.p, t.start, t.script, Poll(id, reached));
    s := Polled(t.p, t.now, id, reached);
  }

  lemma InReadEnds(t: Trail, stores: map<string, Items>, clock: Time, id: nat, reader: string, key: string,
                   responses: seq<Response>) returns (s: State)
    requires t.p.Proper(key) && InRead(t, stores, clock, id, reader, key, |Members(t.p.group(key))|, responses)
    ensures s == Run(t.p, t.start, t.script + [AnswerRead(id)]) && s.stores == stores && s.clock == clock
    ensures id in s.queries && s.queries[id] == Read(key, reader, |t.start.acked|, |Members(t.p.group(key))|, responses,
              if responses == [] || |responses| < Majority(|t.p.group(key)|) then None else Some(Best(responses)))
  {
    RunAppended(t.p, t.start, t.script, AnswerRead(id));
    s := AnsweredRead(t.p, t.now, id);
  }

  // ---------- What the calls do to the stores ----------

  /** After the calls to the members before `i`: those whose call was not lost have been sent the item. */
  ghost predicate SentUpTo(before: map<string, Items>, after: map<string, Items>, group: seq<string>, i: nat,
                     outcomes: seq<Outcome>, key: string, item: Item)
    requires 1 <= i <= |group| == |outcomes| && forall n <- group :: n in before
  {
    && after.Keys == before.Keys
    && (forall j | 1 <= j < i :: if outcomes[j].Lost? then after[group[j]] == before[group[j]]
                                else TakesNewer(before[group[j]], after[group[j]], key, item))
    && forall n <- before | n !in group[1..i] :: after[n] == before[n]
  }

  lemma SentNext(before: map<string, Items>, mid: map<string, Items>, after: map<string, Items>, group: seq<string>,
                 i: nat, outcomes: seq<Outcome>, key: string, item: Item)
    requires 1 <= i < |group| == |outcomes| && Distinct(group) && forall n <- group :: n in before
    requires SentUpTo(before, mid, group, i, outcomes, key, item)
    requires after == if outcomes[i].Lost? then mid else mid[group[i] := Versioned(mid[group[i]], key, item)]
    ensures SentUpTo(before, after, group, i + 1, outcomes, key, item)
  {
    assert group[1..i + 1] == group[1..i] + [group[i]];
    assert group[i] !in group[1..i];
    VersionedTakesNewer(mid[group[i]], key, item);
  }

  /** How many of the calls to the members before `i` were answered. */
  function Replies(outcomes: seq<Outcome>, i: nat): nat
    requires i <= |outcomes|
  {
    |set j | 1 <= j < i && outcomes[j].Replied?|
  }

  lemma RepliesNext(outcomes: seq<Outcome>, i: nat)
    requires 1 <= i < |outcomes|
    ensures Replies(outcomes, i + 1) == Replies(outcomes, i) + if outcomes[i].Replied? then 1 else 0
  {
    var some := set j | 1 <= j < i && outcomes[j].Replied?;
    assert (set j | 1 <= j < i + 1 && outcomes[j].Replied?) == some + if outcomes[i].Replied? then {i} else {};
  }

  // ---------- Who answers a read ----------

  ghost predicate HoldsNow(stores: map<string, Items>, clock: Time, key: string, n: string) {
    n in stores && key in stores[n] && (stores[n][key].expiresAt == NEVER || clock < stores[n][key].expiresAt)
  }

  /**
    The node's copy counts in a read: the reader's own, and those of the group members that the call
    reaches. A primary without an ID is not asked.
   */
  ghost predicate Counts(stores: map<string, Items>, clock: Time, group: seq<string>, reader: string,
                         reached: set<string>, key: string, n: string)
    requires group != []
  {
    && HoldsNow(stores, clock, key, n)
    && (n == reader || (n in group && n in reached && (n == group[0] ==> n != "")))
  }

  /** The reader comes first, then the replicas in ring order, then the primary. */
  ghost predicate AskedBefore(group: seq<string>, reader: string, m: string, n: string) {
    n != reader && (m == reader || exists i, j :: 0 <= i < |group| && 0 <= j < |group| && group[i] == m && group[j] == n
                                                  && i != 0 && (j == 0 || i < j))
  }

  /** Position -1 is the reader's. */
  ghost function NodeAt(reader: string, members: seq<string>, j: int): string
    requires -1 <= j < |members|
  {
    if j == -1 then reader else members[j]
  }

  ghost predicate CountsAt(stores: map<string, Items>, clock: Time, reader: string, members: seq<string>,
                           reached: set<string>, key: string, j: int)
    requires -1 <= j < |members|
  {
    && HoldsNow(stores, clock, key, NodeAt(reader, members, j))
    && (j == -1 || (members[j] != reader && members[j] in reached))
  }

  /** The responses before member `i` is asked, and the positions they come from. */
  ghost predicate Ballot(stores: map<string, Items>, clock: Time, reader: string, members: seq<string>,
                         reached: set<string>, key: string, i: nat, responses: seq<Response>, at: seq<int>)
    requires i <= |members|
  {
    && |at| == |responses| && (forall x :: 0 <= x < |at| ==> -1 <= at[x] < i)
    && (forall x, y :: 0 <= x < y < |at| ==> at[x] < at[y])
    && (forall x :: 0 <= x < |at| ==> CastBy(stores, clock, reader, members, reached, key, at[x], responses[x]))
    && (forall j :: -1 <= j < i && CountsAt(stores, clock, reader, members, reached, key, j) ==> j in at)
  }

  /** The response is the item of the node at this position, which counts. */
  ghost predicate CastBy(stores: map<string, Items>, clock: Time, reader: string, members: seq<string>,
                         reached: set<string>, key: string, j: int, x: Response)
    requires -1 <= j < |members|
  {
    var n := NodeAt(reader, members, j);
    CountsAt(stores, clock, reader, members, reached, key, j) && x == Response(n, stores[n][key])
  }

  lemma BallotNext(stores: map<string, Items>, clock: Time, reader: string, members: seq<string>, reached: set<string>,
                   key: string, i: nat, responses: seq<Response>, at: seq<int>)
    requires i < |members| && Ballot(stores, clock, reader, members, reached, key, i, responses, at)
    ensures var n, more := members[i], CountsAt(stores, clock, reader, members, reached, key, i);
            Ballot(stores, clock, reader, members, reached, key, i + 1,
                   responses + (if more then [Response(n, stores[n][key])] else []), at + if more then [i] else [])
  {
    var more := CountsAt(stores, clock, reader, members, reached, key, i);
    var at' := at + if more then [i] else [];
    forall j | -1 <= j < i + 1 && CountsAt(stores, clock, reader, members, reached, key, j) ensures j in at' {
      if j < i {
        assert j in at;
      } else {
        assert at'[|at|] == i;
      }
    }
  }

  ghost function Voters(stores: map<string, Items>, clock: Time, group: seq<string>, reader: string,
                        reached: set<string>, key: string): set<string>
    requires group != []
  {
    set n | n in [reader] + group && Counts(stores, clock, group, reader, reached, key, n)
  }

  /** Positions and nodes that count correspond. */
  lemma CountsIff(stores: map<string, Items>, clock: Time, group: seq<string>, reader: string, reached: set<string>,
                  key: string, n: string)
    requires group != [] && Distinct(group)
    ensures Counts(stores, clock, group, reader, reached, key, n)
            <==> exists j :: -1 <= j < |Members(group)| && NodeAt(reader, Members(group), j) == n
                             && CountsAt(stores, clock, reader, Members(group), reached, key, j)
  {
    var members := Members(group);
    MembersAre(group);
    if Counts(stores, clock, group, reader, reached, key, n) {
      if n == reader {
        assert NodeAt(reader, members, -1) == n;
      } else {
        var j :| 0 <= j < |members| && members[j] == n;
        assert NodeAt(reader, members, j) == n;
      }
    }
  }

  lemma MembersAre(group: seq<string>)
    requires group != [] && Distinct(group)
    ensures forall n :: n in Members(group) <==> n in group && (n == group[0] ==> n != "")
    ensures Distinct(Members(group))
  {
    var members := Members(group);
    forall n | n in group && (n == group[0] ==> n != "") ensures n in members {
      var i :| 0 <= i < |group| && group[i] == n;
      if i == 0 {
        assert members[|group| - 1] == n;
      } else {
        assert members[i - 1] == n;
      }
    }
  }

  /** A full ballot has one response for each voter. */
  lemma BallotSize(stores: map<string, Items>, clock: Time, group: seq<string>, reader: string, reached: set<string>,
                   key: string, responses: seq<Response>, at: seq<int>)
    requires group != [] && Distinct(group)
    requires Ballot(stores, clock, reader, Members(group), reached, key, |Members(group)|, responses, at)
    ensures |responses| == |Voters(stores, clock, group, reader, reached, key)|
    ensures forall n :: n in Voters(stores, clock, group, reader, reached, key)
                        <==> exists x :: 0 <= x < |responses| && responses[x].node == n
  {
    var members, voters := Members(group), Voters(stores, clock, group, reader, reached, key);
    var nodes := seq(|responses|, x requires 0 <= x < |responses| => responses[x].node);
    MembersAre(group);
    forall x, y | 0 <= x < y < |nodes| ensures nodes[x] != nodes[y] {
      assert at[x] < at[y];
      assert CastBy(stores, clock, reader, members, reached, key, at[x], responses[x]);
      assert CastBy(stores, clock, reader, members, reached, key, at[y], responses[y]);
    }
    forall n ensures n in nodes <==> n in voters {
      VoterResponds(stores, clock, group, reader, reached, key, responses, at, n);
      if n in nodes {
        var x :| 0 <= x < |nodes| && nodes[x] == n;
        assert responses[x].node == n;
      }
      if x :| 0 <= x < |responses| && responses[x].node == n {
        assert nodes[x] == n;
      }
    }
    DistinctLength(nodes, voters);
  }

  lemma VoterResponds(stores: map<string, Items>, clock: Time, group: seq<string>, reader: string, reached: set<string>,
                      key: string, responses: seq<Response>, at: seq<int>, n: string)
    requires group != [] && Distinct(group)
    requires Ballot(stores, clock, reader, Members(group), reached, key, |Members(group)|, responses, at)
    ensures n in Voters(stores, clock, group, reader, reached, key)
            <==> exists x :: 0 <= x < |responses| && responses[x].node == n
  {
    var members := Members(group);
    CountsIff(stores, clock, group, reader, reached, key, n);
    if Counts(stores, clock, group, reader, reached, key, n) {
      var j :| -1 <= j < |members| && NodeAt(reader, members, j) == n
               && CountsAt(stores, clock, reader, members, reached, key, j);
      var x :| 0 <= x < |at| && at[x] == j;
      assert CastBy(stores, clock, reader, members, reached, key, at[x], responses[x]);
    }
    if x :| 0 <= x < |responses| && responses[x].node == n {
      assert CastBy(stores, clock, reader, members, reached, key, at[x], responses[x]);
    }
  }

  /** The response chosen is the voters' newest item, and that of the voter asked first among equals. */
  ghost predicate Newest(stores: map<string, Items>, group: seq<string>, reader: string, key: string,
                         voters: set<string>, best: Response)
    requires forall n <- voters :: n in stores && key in stores[n]
  {
    && best.node in voters && best.item == stores[best.node][key]
    && forall n <- voters | n != best.node ::
         || stores[n][key].version < best.item.version
         || (stores[n][key].version == best.item.version && AskedBefore(group, reader, best.node, n))
  }

  lemma PlacesOrder(group: seq<string>, reader: string, i: int, j: int)
    requires group != [] && Distinct(group) && -1 <= i < j < |Members(group)|
    requires NodeAt(reader, Members(group), j) != reader
    ensures AskedBefore(group, reader, NodeAt(reader, Members(group), i), NodeAt(reader, Members(group), j))
  {
    var members := Members(group);
    if i >= 0 {
      assert members[i] == group[i + 1];
      if j + 1 < |group| {
        assert members[j] == group[j + 1];
      } else {
        assert members[j] == group[0];
      }
    }
  }

  lemma BestIsNewestVote(stores: map<string, Items>, clock: Time, group: seq<string>, reader: string,
                         reached: set<string>, key: string, responses: seq<Response>, at: seq<int>, t: nat)
    requires group != [] && Distinct(group) && t < |responses|
    requires Ballot(stores, clock, reader, Members(group), reached, key, |Members(group)|, responses, at)
    requires forall x <- responses :: x.item.version <= responses[t].item.version
    requires forall j :: 0 <= j < t ==> responses[j].item.version < responses[t].item.version
    ensures Newest(stores, group, reader, key, Voters(stores, clock, group, reader, reached, key), responses[t])
  {
    var members, voters, best := Members(group), Voters(stores, clock, group, reader, reached, key), responses[t];
    BallotSize(stores, clock, group, reader, reached, key, responses, at);
    assert CastBy(stores, clock, reader, members, reached, key, at[t], best);
    forall n <- voters | n != best.node
      ensures stores[n][key].version < best.item.version
              || (stores[n][key].version == best.item.version && AskedBefore(group, reader, best.node, n))
    {
      var x :| 0 <= x < |responses| && responses[x].node == n;
      assert CastBy(stores, clock, reader, members, reached, key, at[x], responses[x]);
      assert responses[x] in responses;
      if x > t {
        PlacesOrder(group, reader, at[t], at[x]);
      }
    }
  }

  class Coordinator {
    const placement: Placement
    var stores: map<string, Items>
    var clock: Time
    /** The same stores in a state of the step machine, with its history. */
    ghost var cluster: State

    ghost predicate Valid()
      reads this
    {
      cluster.stores == stores && cluster.clock == clock
    }

    constructor (placement: Placement, stores: map<string, Items>, clock: Time)
      ensures Valid() && this.placement == placement && this.stores == stores && this.clock == clock
      ensures cluster == Init(stores, clock)
    {
      this.placement, this.stores, this.clock := placement, stores, clock;
      cluster := Init(stores, clock);
    }

    /** `SetVersion` at a node: whether it was accepted, which neither the primary nor a replica acts upon. */
    method SetVersion(node: string, key: string, item: Item) returns (accepted: bool)
      requires node in stores
      modifies this`stores
      ensures accepted <==> !(key in old(stores)[node] && old(stores)[node][key].version >= item.version)
      ensures stores == old(stores)[node := Versioned(old(stores)[node], key, item)]
      ensures TakesNewer(old(stores)[node], stores[node], key, item)
    {
      VersionedTakesNewer(stores[node], key, item);
      accepted := !Refuses(stores[node], key, item.version);
      if accepted {
        stores := stores[node := stores[node][key := item]];
      } else {
        assert stores == stores[node := stores[node]];
      }
    }

    /**
      `handleQuorumSet` at the primary; `outcomes[i]` is what happens to the call to member `i`. The primary
      takes the value unless a copy at the chosen version or above lingers there, and so does each replica
      whose call is not lost; nothing else changes. Answered calls and the primary's own write are counted.
     */
    method HandleQuorumSet(ghost id: nat, key: string, value: string, ttl: int, outcomes: seq<Outcome>)
      returns (status: Status, acks: nat, version: int, ghost script: seq<Action>)
      requires Valid() && placement.Proper(key) && id !in cluster.writes
      requires forall n <- placement.group(key) :: n in stores
      requires |outcomes| == |placement.group(key)|
      modifies this
      ensures Valid() && clock == old(clock) && stores.Keys == old(stores).Keys
      ensures var was := old(stores)[placement.group(key)[0]];
              version == if key in was && (was[key].expiresAt == NEVER || clock < was[key].expiresAt)
                         then was[key].version + 1 else 1
      ensures var group, expiresAt := placement.group(key), if ttl > 0 then clock + ttl else NEVER;
              && TakesNewer(old(stores)[group[0]], stores[group[0]], key, Item(value, expiresAt, version))
              && (forall i | 1 <= i < |group| ::
                    if outcomes[i].Lost? then stores[group[i]] == old(stores)[group[i]]
                    else TakesNewer(old(stores)[group[i]], stores[group[i]], key, Item(value, Hop(expiresAt), version)))
              && (forall n <- stores | n !in group :: stores[n] == old(stores)[n])
      ensures acks == 1 + |set i | 1 <= i < |outcomes| && outcomes[i].Replied?|
      ensures status == if 2 * acks > |placement.group(key)| then Ok else Unavailable
      ensures cluster == Run(placement, old(cluster), script)
      ensures id in cluster.writes && cluster.writes[id].key == key && cluster.writes[id].version == version
      ensures cluster.writes[id].value == value
      ensures cluster.writes[id].expiresAt == if ttl > 0 then clock + ttl else NEVER
      ensures acks == |cluster.writes[id].acks| + 1
      ensures status.Ok? ==>
                cluster.acked == old(cluster.acked)
                                 + [Acked(id, key, version, cluster.writes[id].acks + {placement.group(key)[0]})]
      ensures !status.Ok? ==> cluster.acked == old(cluster.acked)
    {
      var group := placement.group(key);
      ghost var s0, before := cluster, stores;
      var item;
      item, script := WriteLocally(id, key, value, ttl);
      version := item.version;
      ghost var first := stores;
      var replicaAcks;
      replicaAcks, script := AskReplicas(s0, script, id, key, item, outcomes);
      WrittenAndSent(before, first, stores, group, outcomes, key, item);
      acks := replicaAcks + 1;
      cluster := InStepEnds(Trail(placement, s0, script, cluster), stores, clock, id, key, item, replicaAcks);
      script := script + [AnswerWrite(id)];
      status := if acks < Majority(|group|) then Unavailable else Ok;
    }

    /** The primary chooses the next version and stores the value under it. */
    method WriteLocally(ghost id: nat, key: string, value: string, ttl: int)
      returns (item: Item, ghost script: seq<Action>)
      requires Valid() && placement.Proper(key) && id !in cluster.writes && placement.group(key)[0] in stores
      modifies this`stores, this`cluster
      ensures var was := old(stores)[placement.group(key)[0]];
              item.version == if key in was && (was[key].expiresAt == NEVER || clock < was[key].expiresAt)
                              then was[key].version + 1 else 1
      ensures item.value == value && item.expiresAt == if ttl > 0 then clock + ttl else NEVER
      ensures var primary := placement.group(key)[0];
              && stores.Keys == old(stores).Keys && stores == old(stores)[primary := stores[primary]]
              && TakesNewer(old(stores)[primary], stores[primary], key, item)
      ensures InStep(Trail(placement, old(cluster), script, cluster), stores, clock, id, key, item, 1, 0)
    {
      var primary := placement.group(key)[0];
      var expiresAt := Deadline(ttl, clock);
      var current := Fetch(stores[primary], key, clock);
      item := Item(value, expiresAt, if current.Some? then current.value.version + 1 else 1);
      ghost var s0 := cluster;
      var accepted := SetVersion(primary, key, item);
      cluster := InStepStarts(placement, s0, id, key, value, ttl, stores);
      script := [BeginWrite(id, key, value, ttl), LocalWrite(id)];
    }

    /** The local write and the calls together. */
    lemma WrittenAndSent(before: map<string, Items>, first: map<string, Items>, after: map<string, Items>,
                         group: seq<string>, outcomes: seq<Outcome>, key: string, item: Item)
      requires group != [] && |outcomes| == |group| && Distinct(group) && forall n <- group :: n in before
      requires first.Keys == before.Keys && first == before[group[0] := first[group[0]]]
      requires SentUpTo(first, after, group, |group|, outcomes, key, Relayed(item))
      ensures after.Keys == before.Keys && after[group[0]] == first[group[0]]
      ensures forall i | 1 <= i < |group| ::
                if outcomes[i].Lost? then after[group[i]] == before[group[i]]
                else TakesNewer(before[group[i]], after[group[i]], key, Relayed(item))
      ensures forall n <- after | n !in group :: after[n] == before[n]
    {
      assert group[0] !in group[1..];
      forall i | 1 <= i < |group| ensures first[group[i]] == before[group[i]] {
        assert group[i] != group[0];
      }
    }

    /** The loop over the replicas. */
    method AskReplicas(ghost s0: State, ghost before: seq<Action>, ghost id: nat, key: string, item: Item,
                       outcomes: seq<Outcome>)
      returns (acks: nat, ghost script: seq<Action>)
      requires placement.Proper(key) && |outcomes| == |placement.group(key)|
      requires forall n <- placement.group(key) :: n in stores
      requires InStep(Trail(placement, s0, before, cluster), stores, clock, id, key, item, 1, 0)
      modifies this`stores, this`cluster
      ensures InStep(Trail(placement, s0, script, cluster), stores, clock, id, key, item, |placement.group(key)|, acks)
      ensures SentUpTo(old(stores), stores, placement.group(key), |placement.group(key)|, outcomes, key, Relayed(item))
      ensures acks == |set i | 1 <= i < |outcomes| && outcomes[i].Replied?|
    {
      var group := placement.group(key);
      acks, script := 0, before;
      assert Replies(outcomes, 1) == 0;
      for i := 1 to |group|
        invariant stores.Keys == old(stores.Keys)
        invariant InStep(Trail(placement, s0, script, cluster), stores, clock, id, key, item, i, acks)
        invariant SentUpTo(old(stores), stores, group, i, outcomes, key, Relayed(item))
        invariant acks == Replies(outcomes, i)
      {
        ghost var m := stores;
        var ok := CallReplica(group[i], key, item, outcomes[i]);
        cluster := InStepNext(Trail(placement, s0, script, cluster), m, stores, clock, id, key, item, i, acks,
                              outcomes[i]);
        SentNext(old(stores), m, stores, group, i, outcomes, key, Relayed(item));
        RepliesNext(outcomes, i);
        script := script + CallSteps(id, group[i], outcomes[i]);
        if ok {
          acks := acks + 1;
        }
      }
    }

    /**
      `replicateQuorumSet` and the replica's handler. The caller learns whether a reply arrived, never
      whether the replica accepted: a refusing replica is counted like an accepting one, and one
      whose reply is lost may have stored the copy although it is not counted.
     */
    method CallReplica(node: string, key: string, item: Item, outcome: Outcome) returns (ok: bool)
      requires node in stores
      modifies this`stores
      ensures outcome.Lost? ==> stores == old(stores)
      ensures !outcome.Lost? ==> stores == old(stores)[node := Versioned(old(stores)[node], key, Relayed(item))]
      ensures !outcome.Lost? ==>
                TakesNewer(old(stores)[node], stores[node], key, Item(item.value, Hop(item.expiresAt), item.version))
      ensures ok ==> key in stores[node] && stores[node][key].version >= item.version
      ensures ok <==> outcome.Replied?
    {
      if outcome.Lost? {
        return false;
      }
      var accepted := SetVersion(node, key, Item(item.value, Decode(UnixMilli(item.expiresAt)), item.version));
      ok := outcome.Replied?;
    }

    /** `handleReplicaGet`, and the same lookup at the reader itself. */
    method LocalCopy(node: string, key: string) returns (copy: seq<Response>)
      ensures copy == Vote(stores, node, key, clock)
      ensures copy == if HoldsNow(stores, clock, key, node) then [Response(node, stores[node][key])] else []
    {
      copy := [];
      if node in stores {
        var found := Fetch(stores[node], key, clock);
        if found.Some? {
          copy := [Response(node, found.value)];
        }
      }
    }

    /**
      `handleQuorumGet` at any node; `reached` are the nodes whose calls are answered. The answer is 404
      without any vote, 503 without a majority of the group, and otherwise the newest of the copies that count.
     */
    method HandleQuorumGet(ghost id: nat, reader: string, key: string, reached: set<string>)
      returns (status: Status, best: Option<Response>, ghost script: seq<Action>)
      requires Valid() && placement.Proper(key) && id !in cluster.queries
      modifies this`cluster
      ensures var voters := set n | n in [reader] + placement.group(key)
                                    && Counts(stores, clock, placement.group(key), reader, reached, key, n);
              && status == (if |voters| == 0 then NotFound
                            else if 2 * |voters| <= |placement.group(key)| then Unavailable else Ok)
              && (best.Some? <==> status.Ok?)
              && (best.Some? ==> Newest(stores, placement.group(key), reader, key, voters, best.value))
      ensures Valid() && cluster == Run(placement, old(cluster), script)
      ensures id in cluster.queries && cluster.queries[id].key == key && cluster.queries[id].reader == reader
      ensures cluster.queries[id].seen == |old(cluster).acked|
      ensures best == cluster.queries[id].answer
    {
      ghost var s0 := cluster;
      var responses;
      ghost var at;
      responses, at, script := AskMembers(id, reader, key, reached);
      cluster := InReadEnds(Trail(placement, s0, script, cluster), stores, clock, id, reader, key, responses);
      script := script + [AnswerRead(id)];
      status, best := Concluded(placement.group(key), reader, key, reached, responses, at);
    }

    /** The reader's own copy and the loop over the other members. */
    method AskMembers(ghost id: nat, reader: string, key: string, reached: set<string>)
      returns (responses: seq<Response>, ghost at: seq<int>, ghost script: seq<Action>)
      requires Valid() && placement.Proper(key) && id !in cluster.queries
      modifies this`cluster
      ensures var members := Members(placement.group(key));
              && Ballot(stores, clock, reader, members, reached, key, |members|, responses, at)
              && InRead(Trail(placement, old(cluster), script, cluster), stores, clock, id, reader, key, |members|,
                        responses)
    {
      var members := Members(placement.group(key));
      ghost var s0 := cluster;
      responses := LocalCopy(reader, key);
      at := if HoldsNow(stores, clock, key, reader) then [-1] else [];
      cluster := InReadStarts(placement, s0, id, reader, key);
      script := [BeginRead(id, reader, key)];
      for i := 0 to |members|
        invariant InRead(Trail(placement, s0, script, cluster), stores, clock, id, reader, key, i, responses)
        invariant Ballot(stores, clock, reader, members, reached, key, i, responses, at)
      {
        ghost var answered := members[i] in reached;
        cluster := InReadNext(Trail(placement, s0, script, cluster), stores, clock, id, reader, key, i, responses,
                              answered);
        BallotNext(stores, clock, reader, members, reached, key, i, responses, at);
        at := at + if CountsAt(stores, clock, reader, members, reached, key, i) then [i] else [];
        script := script + [Poll(id, answered)];
        if members[i] != reader {
          var copy := LocalCopy(members[i], key);
          if members[i] in reached {
            responses := responses + copy;
          }
        }
        assert responses + [] == responses;
      }
    }

    /** The end of the read: its status and its answer from the responses. */
    method Concluded(group: seq<string>, reader: string, key: string, ghost reached: set<string>,
                     responses: seq<Response>, ghost at: seq<int>)
      returns (status: Status, best: Option<Response>)
      requires group != [] && Distinct(group)
      requires Ballot(stores, clock, reader, Members(group), reached, key, |Members(group)|, responses, at)
      ensures var voters := Voters(stores, clock, group, reader, reached, key);
              && status == (if |voters| == 0 then NotFound else if 2 * |voters| <= |group| then Unavailable else Ok)
              && (best.Some? <==> status.Ok?)
              && (best.Some? ==> Newest(stores, group, reader, key, voters, best.value))
      ensures best == if responses == [] || |responses| < Majority(|group|) then None else Some(Best(responses))
    {
      BallotSize(stores, clock, group, reader, reached, key, responses, at);
      if |responses| == 0 {
        return NotFound, None;
      }
      if |responses| < Majority(|group|) {
        return Unavailable, None;
      }
      var b := BestResponse(responses);
      ghost var t :| 0 <= t < |responses| && responses[t] == b
                     && forall j :: 0 <= j < t ==> responses[j].item.version < b.item.version;
      BestIsNewestVote(stores, clock, group, reader, reached, key, responses, at, t);
      return Ok, Some(b);
    }
  }
}
