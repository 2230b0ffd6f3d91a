/**
  Quorum intersection over whole runs: once a quorum write is acknowledged, later quorum reads
  return its version or a newer one, as long as the reader's own vote is not an outsider's vote in
  a group of odd size.
 */
module QuorumSafety {
  import opened Lists
  import opened Expiry
  import opened StoreSpec
  import opened Topology
  import opened Quorum

  // ---------- Versions never go back ----------

  ghost predicate AtLeast(s: State, node: string, key: string, version: int) {
    node in s.stores && key in s.stores[node] && s.stores[node][key].version >= version
  }

  /** Every node's version of the key in `t` is at least what it was in `s`. */
  ghost predicate Advances(s: State, t: State, key: string) {
    forall n, v :: AtLeast(s, n, key, v) ==> AtLeast(t, n, key, v)
  }

  lemma StoreAdvances(s: State, node: string, m: Items, key: string)
    requires node in s.stores && key in s.stores[node] ==> key in m && m[key].version >= s.stores[node][key].version
    ensures Advances(s, Store(s, node, m), key)
  {
  }

  /** No step takes a copy of an undisturbed key back to an older version. */
  lemma StepAdvances(p: Placement, s: State, a: Action, key: string)
    requires Enabled(p, s, a) && Spares(a, key) && Unexpired(s, key)
    ensures Advances(s, Next(p, s, a), key)
  {
    match a
    case PlainWrite(node, k, value, expiresAt) =>
      StoreAdvances(s, node, Written(Contents(s, node), k, value, expiresAt), key);
    case Remove(node, k) => StoreAdvances(s, node, Contents(s, node) - {k}, key);
    case SweepNode(node) => StoreAdvances(s, node, Swept(Contents(s, node), s.clock), key);
    case LocalWrite(id) =>
      var w, primary := s.writes[id], p.Primary(s.writes[id].key);
      var item := Item(w.value, w.expiresAt, w.version);
      StoreAdvances(s, primary, Versioned(Contents(s, primary), w.key, item), key);
    case Deliver(id, node) =>
      var w := s.writes[id];
      StoreAdvances(s, node, Versioned(Contents(s, node), w.key, Item(w.value, Hop(w.expiresAt), w.version)), key);
    case AnswerRead(id) =>
    case _ =>
  }

  // ---------- The invariant ----------

  ghost predicate WriteOk(p: Placement, s: State, w: Write) {
    && p.Proper(w.key)
    && (!w.phase.VersionRead? ==> AtLeast(s, p.Primary(w.key), w.key, w.version))
    && (w.phase.Sending? || w.phase.Waiting? ==> w.phase.next >= 1)
    && (forall n <- w.acks :: n in p.group(w.key)[1..] && AtLeast(s, n, w.key, w.version))
  }

  ghost predicate WritesOk(p: Placement, s: State, key: string) {
    forall id <- s.writes :: s.writes[id].key == key ==> WriteOk(p, s, s.writes[id])
  }

  ghost predicate DeliveredOk(s: State, key: string, d: (nat, string)) {
    d.0 in s.writes && (s.writes[d.0].key == key ==> AtLeast(s, d.1, key, s.writes[d.0].version))
  }

  ghost predicate DeliveriesOk(s: State, key: string) {
    forall d <- s.delivered :: DeliveredOk(s, key, d)
  }

  /** A majority of the group holds the acknowledged version or a newer one. */
  ghost predicate AckedOk(p: Placement, s: State, e: Acked) {
    && p.Proper(e.key)
    && (forall n <- e.quorum :: n in p.group(e.key) && AtLeast(s, n, e.key, e.version))
    && |e.quorum| >= Majority(|p.group(e.key)|)
  }

  ghost predicate HistoryOk(p: Placement, s: State, key: string) {
    forall i :: 0 <= i < |s.acked| ==> s.acked[i].key == key ==> AckedOk(p, s, s.acked[i])
  }

  function Nodes(responses: seq<Response>): seq<string> {
    if responses == [] then [] else Nodes(responses[..|responses| - 1]) + [responses[|responses| - 1].node]
  }

  /** A response from a node of an acknowledged quorum is not older than that write. */
  ghost predicate UpToDate(acked: seq<Acked>, seen: nat, key: string, x: Response)
    requires seen <= |acked|
  {
    forall i :: 0 <= i < seen && acked[i].key == key && x.node in acked[i].quorum ==> x.item.version >= acked[i].version
  }

  ghost predicate ReadOk(p: Placement, acked: seq<Acked>, r: Read) {
    && p.Proper(r.key) && r.seen <= |acked|
    && r.next <= |Members(p.group(r.key))|
    && Distinct(Nodes(r.responses))
    && (forall x <- r.responses :: x.node == r.reader || x.node in Members(p.group(r.key))[..r.next])
    && (forall x <- r.responses :: UpToDate(acked, r.seen, r.key, x))
    && (r.answer.Some? ==> |r.responses| >= Majority(|p.group(r.key)|) && r.answer == Some(Best(r.responses)))
  }

  ghost predicate ReadsOk(p: Placement, s: State, key: string) {
    forall id <- s.queries :: s.queries[id].key == key ==> ReadOk(p, s.acked, s.queries[id])
  }

  ghost predicate Inv(p: Placement, s: State, key: string) {
    WritesOk(p, s, key) && DeliveriesOk(s, key) && HistoryOk(p, s, key) && ReadsOk(p, s, key)
  }

  // ---------- Every step keeps it ----------

  lemma WriteStaysOk(p: Placement, s: State, t: State, w: Write)
    requires WriteOk(p, s, w) && Advances(s, t, w.key)
    ensures WriteOk(p, t, w)
  {
  }

  lemma StepKeepsWrites(p: Placement, s: State, a: Action, key: string)
    requires Enabled(p, s, a) && Spares(a, key) && Unexpired(s, key)
    requires WritesOk(p, s, key) && DeliveriesOk(s, key)
    ensures WritesOk(p, Next(p, s, a), key)
  {
    var t := Next(p, s, a);
    StepAdvances(p, s, a, key);
    forall id <- t.writes | t.writes[id].key == key ensures WriteOk(p, t, t.writes[id]) {
      if id in s.writes && t.writes[id] == s.writes[id] {
        WriteStaysOk(p, s, t, s.writes[id]);
      } else {
        ChangedWriteOk(p, s, a, id);
      }
    }
  }

  lemma ChangedWriteOk(p: Placement, s: State, a: Action, id: nat)
    requires Enabled(p, s, a) && id in Next(p, s, a).writes
    requires id !in s.writes || Next(p, s, a).writes[id] != s.writes[id]
    requires var key := Next(p, s, a).writes[id].key;
             WritesOk(p, s, key) && DeliveriesOk(s, key) && Advances(s, Next(p, s, a), key)
    requires Spares(a, Next(p, s, a).writes[id].key)
    ensures WriteOk(p, Next(p, s, a), Next(p, s, a).writes[id])
  {
    var t := Next(p, s, a);
    match a
    case BeginWrite(_, _, _, _) =>
    case LocalWrite(_) =>
      var w, primary := s.writes[id], p.Primary(s.writes[id].key);
      assert AtLeast(t, primary, w.key, w.version);
    case Send(_) =>
    case Ack(_) =>
      var w := s.writes[id];
      var node := p.group(w.key)[w.phase.next];
      assert DeliveredOk(s, w.key, (id, node));
      assert p.group(w.key)[1..][w.phase.next - 1] == node;
    case GiveUp(_) =>
    case AnswerWrite(_) =>
    case _ =>
  }

  lemma StepKeepsDeliveries(p: Placement, s: State, a: Action, key: string)
    requires Enabled(p, s, a) && Spares(a, key) && Unexpired(s, key)
    requires DeliveriesOk(s, key)
    ensures DeliveriesOk(Next(p, s, a), key)
  {
    var t := Next(p, s, a);
    StepAdvances(p, s, a, key);
    forall d <- t.delivered ensures DeliveredOk(t, key, d) {
      if d in s.delivered {
        assert DeliveredOk(s, key, d);
      } else {
        DeliveryArrives(s, a.id, a.node);
      }
    }
  }

  /** Whether the replica accepts the write or refuses it, it then holds that version or a newer one. */
  lemma DeliveryArrives(s: State, id: nat, node: string)
    requires id in s.writes && node in s.stores
    ensures DeliveredOk(DeliveredTo(s, id, node), s.writes[id].key, (id, node))
  {
  }

  lemma StepKeepsHistory(p: Placement, s: State, a: Action, key: string)
    requires Enabled(p, s, a) && Spares(a, key) && Unexpired(s, key)
    requires WritesOk(p, s, key) && HistoryOk(p, s, key)
    ensures HistoryOk(p, Next(p, s, a), key)
  {
    var t := Next(p, s, a);
    StepAdvances(p, s, a, key);
    forall i | 0 <= i < |t.acked| && t.acked[i].key == key ensures AckedOk(p, t, t.acked[i]) {
      if i < |s.acked| {
        assert t.acked[i] == s.acked[i];
        assert AckedOk(p, s, s.acked[i]);
      } else {
        AckIsMajority(p, s, a.id);
      }
    }
  }

  lemma AckIsMajority(p: Placement, s: State, id: nat)
    requires id in s.writes && WriteOk(p, s, s.writes[id]) && !s.writes[id].phase.VersionRead?
    requires |s.writes[id].acks| + 1 >= Majority(|p.group(s.writes[id].key)|)
    ensures var w := s.writes[id]; AckedOk(p, s, Acked(id, w.key, w.version, w.acks + {p.Primary(w.key)}))
  {
    var w := s.writes[id];
    var group := p.group(w.key);
    forall n <- group[1..] ensures n != group[0] && n in group {
      var i :| 0 <= i < |group[1..]| && group[1..][i] == n;
      assert group[i + 1] == n;
    }
    assert p.Primary(w.key) !in w.acks;
  }

  // ---------- Reads ----------

  lemma {:induction false} NodesSnoc(responses: seq<Response>, x: Response)
    ensures Nodes(responses + [x]) == Nodes(responses) + [x.node]
  {
    assert (responses + [x])[..|responses|] == responses;
  }

  lemma {:induction false} NodesMembers(responses: seq<Response>)
    ensures |Nodes(responses)| == |responses|
    ensures forall i :: 0 <= i < |responses| ==> Nodes(responses)[i] == responses[i].node
  {
    if responses != [] {
      NodesMembers(responses[..|responses| - 1]);
    }
  }

  lemma MembersDistinct(group: seq<string>)
    requires group != [] && Distinct(group)
    ensures Distinct(Members(group))
    ensures forall n <- Members(group) :: n in group
  {
    var rest := group[1..];
    forall i, j | 0 <= i < j < |rest| ensures rest[i] != rest[j] {
      assert rest[i] == group[i + 1] && rest[j] == group[j + 1];
    }
    forall i | 0 <= i < |rest| ensures rest[i] != group[0] {
      assert rest[i] == group[i + 1];
    }
    if group[0] != "" {
      SnocDistinct(rest, group[0]);
    }
  }

  /** What an undisturbed node answers is at least as new as every write it was counted for. */
  lemma LocalResponseUpToDate(p: Placement, s: State, node: string, key: string, seen: nat)
    requires HistoryOk(p, s, key) && Unexpired(s, key) && seen <= |s.acked|
    ensures forall x <- LocalResponse(s, node, key) :: x.node == node && UpToDate(s.acked, seen, key, x)
  {
    forall x <- LocalResponse(s, node, key) ensures x.node == node && UpToDate(s.acked, seen, key, x) {
      forall i | 0 <= i < seen && s.acked[i].key == key && node in s.acked[i].quorum
        ensures x.item.version >= s.acked[i].version
      {
        assert AckedOk(p, s, s.acked[i]);
      }
    }
  }

  lemma PollKeepsRead(p: Placement, s: State, id: nat, reached: bool)
    requires Enabled(p, s, Poll(id, reached)) && ReadOk(p, s.acked, s.queries[id])
    requires HistoryOk(p, s, s.queries[id].key) && Unexpired(s, s.queries[id].key)
    ensures ReadOk(p, s.acked, Polled(p, s, id, reached).queries[id])
  {
    var r := s.queries[id];
    var members := Members(p.group(r.key));
    var node := members[r.next];
    MembersDistinct(p.group(r.key));
    assert members[..r.next + 1] == members[..r.next] + [node];
    var more := LocalResponse(s, node, r.key);
    LocalResponseUpToDate(p, s, node, r.key, r.seen);
    if reached && node != r.reader && more != [] {
      var x := more[0];
      assert more == [x];
      assert node !in members[..r.next];
      NodesMembers(r.responses);
      assert node !in Nodes(r.responses);
      NodesSnoc(r.responses, x);
      SnocDistinct(Nodes(r.responses), node);
    } else {
      assert r.responses + [] == r.responses;
    }
  }

  lemma BeginReadOk(p: Placement, s: State, reader: string, key: string)
    requires p.Proper(key) && HistoryOk(p, s, key) && Unexpired(s, key)
    ensures ReadOk(p, s.acked, Read(key, reader, |s.acked|, 0, LocalResponse(s, reader, key), None))
  {
    var local := LocalResponse(s, reader, key);
    LocalResponseUpToDate(p, s, reader, key, |s.acked|);
    NodesMembers(local);
  }

  lemma ReadSurvivesHistory(p: Placement, acked: seq<Acked>, acked': seq<Acked>, r: Read)
    requires ReadOk(p, acked, r) && acked <= acked'
    ensures ReadOk(p, acked', r)
  {
    forall x <- r.responses ensures UpToDate(acked', r.seen, r.key, x) {
      assert UpToDate(acked, r.seen, r.key, x);
    }
  }

  lemma StepKeepsReads(p: Placement, s: State, a: Action, key: string)
    requires Enabled(p, s, a) && Unexpired(s, key)
    requires HistoryOk(p, s, key) && ReadsOk(p, s, key)
    ensures ReadsOk(p, Next(p, s, a), key)
  {
    var t := Next(p, s, a);
    assert s.acked <= t.acked;
    forall id <- t.queries | t.queries[id].key == key ensures ReadOk(p, t.acked, t.queries[id]) {
      if id in s.queries && t.queries[id] == s.queries[id] {
        ReadSurvivesHistory(p, s.acked, t.acked, s.queries[id]);
      } else if a.BeginRead? {
        BeginReadOk(p, s, a.reader, a.key);
      } else if a.Poll? {
        PollKeepsRead(p, s, id, a.reached);
      }
    }
  }

  lemma StepKeepsInv(p: Placement, s: State, a: Action, key: string)
    requires Enabled(p, s, a) && Spares(a, key) && Unexpired(s, key) && Inv(p, s, key)
    ensures Inv(p, Next(p, s, a), key)
  {
    StepKeepsWrites(p, s, a, key);
    StepKeepsDeliveries(p, s, a, key);
    StepKeepsHistory(p, s, a, key);
    StepKeepsReads(p, s, a, key);
  }

  lemma {:induction false} RunKeepsInv(p: Placement, stores: map<string, Items>, clock: Time, actions: seq<Action>,
                                       key: string)
    requires Undisturbed(p, Init(stores, clock), actions, key)
    ensures Inv(p, Run(p, Init(stores, clock), actions), key)
  {
    if actions != [] {
      var s0, init := Init(stores, clock), actions[..|actions| - 1];
      UndisturbedInit(p, s0, actions, key);
      RunKeepsInv(p, stores, clock, init, key);
      if Enabled(p, Run(p, s0, init), actions[|actions| - 1]) {
        StepKeepsInv(p, Run(p, s0, init), actions[|actions| - 1], key);
      }
    }
  }

  // ---------- Majorities ----------

  lemma Overlap(group: set<string>, w: set<string>, r: set<string>)
    requires w <= group && r <= group && |w| + |r| > |group|
    ensures w * r != {}
  {
    if w * r == {} {
      assert |w + r| == |w| + |r|;
      SubsetSize(w + r, group);
    }
  }

  lemma {:induction false} SubsetSize(a: set<string>, b: set<string>)
    requires a <= b
    ensures |a| <= |b|
  {
    if a != {} {
      var x :| x in a;
      SubsetSize(a - {x}, b - {x});
    }
  }

  lemma {:induction false} SubsetOfSize(b: set<string>, n: nat) returns (a: set<string>)
    requires n <= |b|
    ensures a <= b && |a| == n
  {
    if n == 0 {
      a := {};
    } else {
      var x :| x in b;
      a := SubsetOfSize(b - {x}, n - 1);
      a := a + {x};
    }
  }

  /**
    A majority of write votes and a majority of read votes always share a group member exactly when
    no read vote comes from outside the group, or the group has even size.
   */
  lemma VotesMeetIff(group: set<string>, outsideVotes: nat)
    requires group != {} && outsideVotes <= 1
    ensures (forall w: set<string>, r: set<string> ::
               w <= group && r <= group && |w| >= Majority(|group|) && |r| + outsideVotes >= Majority(|group|) ==>
                 w * r != {})
            <==> outsideVotes == 0 || |group| % 2 == 0
  {
    if outsideVotes == 0 || |group| % 2 == 0 {
      forall w: set<string>, r: set<string>
        | w <= group && r <= group && |w| >= Majority(|group|) && |r| + outsideVotes >= Majority(|group|)
        ensures w * r != {}
      {
        Overlap(group, w, r);
      }
    } else {
      var w := SubsetOfSize(group, Majority(|group|));
      var r := group - w;
      assert |group - w| == |group| - |w|;
      assert w * r == {};
    }
  }

  lemma {:induction false} BestIsNewest(responses: seq<Response>)
    requires responses != []
    ensures Best(responses) in responses
    ensures forall x <- responses :: x.item.version <= Best(responses).item.version
  {
    if |responses| > 1 {
      var init, last := responses[..|responses| - 1], responses[|responses| - 1];
      BestIsNewest(init);
      assert responses == init + [last];
    }
  }

  lemma NodesMeetQuorum(group: set<string>, nodes: set<string>, reader: string, quorum: set<string>)
    requires group != {} && quorum <= group && nodes <= group + {reader}
    requires |nodes| >= Majority(|group|) && |quorum| >= Majority(|group|)
    requires reader in group || |group| % 2 == 0 || reader !in nodes
    ensures nodes * quorum != {}
  {
    var votes := nodes * group;
    if nodes <= group {
      assert votes == nodes;
      VotesMeetIff(group, 0);
    } else {
      assert votes == nodes - {reader};
      VotesMeetIff(group, 1);
    }
    assert quorum * votes <= nodes * quorum;
  }

  function ElementsOf(s: seq<string>): set<string> {
    set x | x in s
  }

  /** Some response comes from a node counted for the write. */
  lemma ResponsesMeetQuorum(group: seq<string>, r: Read, quorum: set<string>)
    requires group != [] && Distinct(group)
    requires Distinct(Nodes(r.responses)) && |r.responses| >= Majority(|group|)
    requires forall x <- r.responses :: x.node == r.reader || x.node in group
    requires (forall n <- quorum :: n in group) && |quorum| >= Majority(|group|)
    requires r.reader in group || |group| % 2 == 0 || forall x <- r.responses :: x.node != r.reader
    ensures exists x <- r.responses :: x.node in quorum
  {
    var g, nodes := ElementsOf(group), ElementsOf(Nodes(r.responses));
    NodesMembers(r.responses);
    DistinctLength(group, g);
    DistinctLength(Nodes(r.responses), nodes);
    assert group[0] in g;
    forall n <- nodes ensures exists x <- r.responses :: x.node == n {
      var i :| 0 <= i < |r.responses| && Nodes(r.responses)[i] == n;
      assert r.responses[i] in r.responses;
    }
    NodesMeetQuorum(g, nodes, r.reader, quorum);
    var n :| n in nodes * quorum;
    assert n in nodes;
  }

  /**
    Quorum intersection over whole runs. A read that began after write `i` was acknowledged and that
    answers 200 returns that version or a newer one, if the reader belongs to the key's group or
    holds no copy of its own, or the group has even size (as with replication factor 2).
   */
  lemma QuorumReadSeesAckedWrite(p: Placement, stores: map<string, Items>, clock: Time, actions: seq<Action>,
                                 key: string, id: nat, i: nat)
    requires Undisturbed(p, Init(stores, clock), actions, key)
    requires var s := Run(p, Init(stores, clock), actions);
             && id in s.queries && s.queries[id].key == key && s.queries[id].answer.Some?
             && i < |s.acked| && i < s.queries[id].seen && s.acked[i].key == key
             && var r, group := s.queries[id], p.group(key);
                (r.reader in group || |group| % 2 == 0 || forall x <- r.responses :: x.node != r.reader)
    ensures var s := Run(p, Init(stores, clock), actions);
            s.queries[id].answer.value.item.version >= s.acked[i].version
  {
    var s := Run(p, Init(stores, clock), actions);
    RunKeepsInv(p, stores, clock, actions, key);
    var r, e := s.queries[id], s.acked[i];
    assert ReadOk(p, s.acked, r) && AckedOk(p, s, e);
    MembersDistinct(p.group(key));
    forall x <- r.responses ensures x.node == r.reader || x.node in p.group(key) {
      assert x.node == r.reader || x.node in Members(p.group(key))[..r.next];
    }
    ResponsesMeetQuorum(p.group(key), r, e.quorum);
    var x :| x in r.responses && x.node in e.quorum;
    assert UpToDate(s.acked, r.seen, key, x);
    BestIsNewest(r.responses);
  }
}
