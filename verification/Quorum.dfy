/**
  Quorum writes and reads as a state machine over their steps. The version read and the version
  write of a write are separate steps, requests to replicas may be lost, may be applied without the
  reply arriving, and may even be applied late or twice; plain writes and any other node's requests
  interleave freely.
 */
module Quorum {
  import opened Lists
  import opened Expiry
  import opened StoreSpec
  import opened Topology

  /** `(totalNodes / 2) + 1`, for writes and reads alike. */
  function Majority(nodes: nat): nat {
    nodes / 2 + 1
  }

  datatype Phase =
    | VersionRead               // the version is chosen, the local write not yet made
    | Sending(next: nat)        // group member `next` is asked next
    | Waiting(next: nat)        // the request to member `next` is out
    | Finished(ok: bool)

  datatype Write = Write(key: string, value: string, expiresAt: Time, version: int, phase: Phase, acks: set<string>)

  datatype Response = Response(node: string, item: Item)

  /** `seen`: how many writes had been acknowledged when the read began. `answer` is set on a 200. */
  datatype Read = Read(key: string, reader: string, seen: nat, next: nat, responses: seq<Response>,
                       answer: Option<Response>)

  /** An acknowledged write and the nodes counted for it. */
  datatype Acked = Acked(id: nat, key: string, version: int, quorum: set<string>)

  datatype State = State(
    stores: map<string, Items>,
    clock: Time,
    writes: map<nat, Write>,
    sent: set<(nat, string)>,
    delivered: set<(nat, string)>,
    queries: map<nat, Read>,
    acked: seq<Acked>)

  datatype Action =
    | Tick(now: Time)
    | PlainWrite(node: string, key: string, value: string, expiresAt: Time)
    | Remove(node: string, key: string)
    | Wipe(node: string)
    | SweepNode(node: string)
    | BeginWrite(id: nat, key: string, value: string, ttl: int)
    | LocalWrite(id: nat)
    | Send(id: nat)
    | Deliver(id: nat, node: string)
    | Ack(id: nat)
    | GiveUp(id: nat)
    | AnswerWrite(id: nat)
    | BeginRead(id: nat, reader: string, key: string)
    | Poll(id: nat, reached: bool)
    | AnswerRead(id: nat)

  function Init(stores: map<string, Items>, clock: Time): State {
    State(stores, clock, map[], {}, {}, map[], [])
  }

  // ---------- Steps ----------

  /** Replace what `node` holds; an unknown node has no store. */
  function Store(s: State, node: string, m: Items): State {
    if node in s.stores then s.(stores := s.stores[node := m]) else s
  }

  function Contents(s: State, node: string): Items {
    if node in s.stores then s.stores[node] else map[]
  }

  /** The next version, from the copy the primary sees: expired or absent copies count as version 0. */
  function ChosenVersion(m: Items, key: string, now: Time): int {
    var found := Fetch(m, key, now);
    if found.Some? then found.value.version + 1 else 1
  }

  function Begun(p: Placement, s: State, id: nat, key: string, value: string, ttl: int): State
    requires p.group(key) != []
  {
    var version := ChosenVersion(Contents(s, p.Primary(key)), key, s.clock);
    s.(writes := s.writes[id := Write(key, value, Deadline(ttl, s.clock), version, VersionRead, {})])
  }

  /** The primary's `SetVersion`, whose refusal is ignored. */
  function WrittenLocally(p: Placement, s: State, id: nat): State
    requires id in s.writes && p.group(s.writes[id].key) != []
  {
    var w, primary := s.writes[id], p.Primary(s.writes[id].key);
    var t := Store(s, primary, Versioned(Contents(s, primary), w.key, Item(w.value, w.expiresAt, w.version)));
    t.(writes := s.writes[id := w.(phase := Sending(1))])
  }

  /** The request to the next group member goes out. */
  function Requested(p: Placement, s: State, id: nat): State
    requires id in s.writes && s.writes[id].phase.Sending? && s.writes[id].phase.next < |p.group(s.writes[id].key)|
  {
    var w := s.writes[id];
    var i := w.phase.next;
    s.(writes := s.writes[id := w.(phase := Waiting(i))], sent := s.sent + {(id, p.group(w.key)[i])})
  }

  /** The reply of the member asked last is counted. */
  function Acknowledged(p: Placement, s: State, id: nat): State
    requires id in s.writes && s.writes[id].phase.Waiting? && s.writes[id].phase.next < |p.group(s.writes[id].key)|
  {
    var w := s.writes[id];
    var i := w.phase.next;
    s.(writes := s.writes[id := w.(phase := Sending(i + 1), acks := w.acks + {p.group(w.key)[i]})])
  }

  function GivenUp(s: State, id: nat): State
    requires id in s.writes && s.writes[id].phase.Waiting?
  {
    var w := s.writes[id];
    s.(writes := s.writes[id := w.(phase := Sending(w.phase.next + 1))])
  }

  /** A replica's `SetVersion`; it answers 200 even if the write is refused. */
  function DeliveredTo(s: State, id: nat, node: string): State
    requires id in s.writes
  {
    var w := s.writes[id];
    var t := Store(s, node, Versioned(Contents(s, node), w.key, Item(w.value, Hop(w.expiresAt), w.version)));
    t.(delivered := s.delivered + {(id, node)})
  }

  function AnsweredWrite(p: Placement, s: State, id: nat): State
    requires id in s.writes && p.group(s.writes[id].key) != []
  {
    var w := s.writes[id];
    var ok := |w.acks| + 1 >= Majority(|p.group(w.key)|);
    var t := s.(writes := s.writes[id := w.(phase := Finished(ok))]);
    if ok then t.(acked := s.acked + [Acked(id, w.key, w.version, w.acks + {p.Primary(w.key)})]) else t
  }

  /** Replicas first, then the primary unless its ID is empty. */
  function Members(group: seq<string>): seq<string>
    requires group != []
  {
    group[1..] + if group[0] != "" then [group[0]] else []
  }

  /** What a node contributes to a read: nothing unless it holds an unexpired copy. */
  function LocalResponse(s: State, node: string, key: string): seq<Response> {
    var found := Fetch(Contents(s, node), key, s.clock);
    if found.Some? then [Response(node, found.value)] else []
  }

  /** The first response with the highest version. */
  function Best(responses: seq<Response>): Response
    requires responses != []
  {
    if |responses| == 1 then responses[0]
    else
      var best, last := Best(responses[..|responses| - 1]), responses[|responses| - 1];
      if last.item.version > best.item.version then last else best
  }

  function Polled(p: Placement, s: State, id: nat, reached: bool): State
    requires id in s.queries && p.group(s.queries[id].key) != []
    requires s.queries[id].next < |Members(p.group(s.queries[id].key))|
  {
    var r := s.queries[id];
    var node := Members(p.group(r.key))[r.next];
    var more := if reached && node != r.reader then LocalResponse(s, node, r.key) else [];
    s.(queries := s.queries[id := r.(next := r.next + 1, responses := r.responses + more)])
  }

  function AnsweredRead(p: Placement, s: State, id: nat): State
    requires id in s.queries
  {
    var r := s.queries[id];
    if r.responses == [] || |r.responses| < Majority(|p.group(r.key)|) then s
    else s.(queries := s.queries[id := r.(answer := Some(Best(r.responses)))])
  }

  ghost predicate Enabled(p: Placement, s: State, a: Action) {
    match a
    case Tick(now) => now >= s.clock
    case BeginWrite(id, key, _, _) => id !in s.writes && p.Proper(key)
    case LocalWrite(id) =>
      && id in s.writes && s.writes[id].phase.VersionRead? && p.Proper(s.writes[id].key)
      && p.Primary(s.writes[id].key) in s.stores
    case Send(id) =>
      && id in s.writes && s.writes[id].phase.Sending? && p.Proper(s.writes[id].key)
      && s.writes[id].phase.next < |p.group(s.writes[id].key)|
    case Deliver(id, node) => (id, node) in s.sent && id in s.writes && node in s.stores
    case Ack(id) =>
      && id in s.writes && s.writes[id].phase.Waiting? && p.Proper(s.writes[id].key)
      && s.writes[id].phase.next < |p.group(s.writes[id].key)|
      && (id, p.group(s.writes[id].key)[s.writes[id].phase.next]) in s.delivered
    case GiveUp(id) => id in s.writes && s.writes[id].phase.Waiting?
    case AnswerWrite(id) =>
      && id in s.writes && s.writes[id].phase.Sending? && p.Proper(s.writes[id].key)
      && s.writes[id].phase.next >= |p.group(s.writes[id].key)|
    case BeginRead(id, _, key) => id !in s.queries && p.Proper(key)
    case Poll(id, _) =>
      && id in s.queries && s.queries[id].answer.None? && p.Proper(s.queries[id].key)
      && s.queries[id].next < |Members(p.group(s.queries[id].key))|
    case AnswerRead(id) =>
      && id in s.queries && s.queries[id].answer.None? && p.Proper(s.queries[id].key)
      && s.queries[id].next >= |Members(p.group(s.queries[id].key))|
    case _ => true
  }

  ghost function Next(p: Placement, s: State, a: Action): State
    requires Enabled(p, s, a)
  {
    match a
    case Tick(now) => s.(clock := now)
    case PlainWrite(node, key, value, expiresAt) => Store(s, node, Written(Contents(s, node), key, value, expiresAt))
    case Remove(node, key) => Store(s, node, Contents(s, node) - {key})
    case Wipe(node) => Store(s, node, map[])
    case SweepNode(node) => Store(s, node, Swept(Contents(s, node), s.clock))
    case BeginWrite(id, key, value, ttl) => Begun(p, s, id, key, value, ttl)
    case LocalWrite(id) => WrittenLocally(p, s, id)
    case Send(id) => Requested(p, s, id)
    case Deliver(id, node) => DeliveredTo(s, id, node)
    case Ack(id) => Acknowledged(p, s, id)
    case GiveUp(id) => GivenUp(s, id)
    case AnswerWrite(id) => AnsweredWrite(p, s, id)
    case BeginRead(id, reader, key) =>
      s.(queries := s.queries[id := Read(key, reader, |s.acked|, 0, LocalResponse(s, reader, key), None)])
    case Poll(id, reached) => Polled(p, s, id, reached)
    case AnswerRead(id) => AnsweredRead(p, s, id)
  }

  /** What the steps besides the requests do to the stores: only the node named changes, and how. */
  lemma OtherStepsAct(p: Placement, s: State, a: Action)
    requires Enabled(p, s, a) && (a.PlainWrite? || a.Remove? || a.Wipe? || a.SweepNode?)
    ensures Next(p, s, a) == s.(stores := Next(p, s, a).stores) && Next(p, s, a).stores.Keys == s.stores.Keys
    ensures forall n <- s.stores | n != a.node :: Next(p, s, a).stores[n] == s.stores[n]
    ensures a.node in s.stores ==>
              var before, after := s.stores[a.node], Next(p, s, a).stores[a.node];
              && (a.PlainWrite? ==> TakesNext(before, after, a.key, a.value, a.expiresAt))
              && (a.Remove? ==> a.key !in after && OthersStay(before, after, a.key))
              && (a.Wipe? ==> after == map[])
              && (a.SweepNode? ==> forall k ::
                    if k in before && (before[k].expiresAt == NEVER || s.clock < before[k].expiresAt)
                    then k in after && after[k] == before[k] else k !in after)
  {
    if a.PlainWrite? {
      WrittenTakesNext(Contents(s, a.node), a.key, a.value, a.expiresAt);
    }
  }

  /** A disabled action leaves the state as it is, so every sequence of actions is a run. */
  ghost function Run(p: Placement, s: State, actions: seq<Action>): State {
    if actions == [] then s
    else
      var before := Run(p, s, actions[..|actions| - 1]);
      var a := actions[|actions| - 1];
      if Enabled(p, before, a) then Next(p, before, a) else before
  }

  // ---------- What a run must not do to the key ----------

  /** Deletions of the key and restarts that empty a store are excluded. */
  predicate Spares(a: Action, key: string) {
    !(a.Remove? && a.key == key) && !a.Wipe?
  }

  /** No stored copy of the key has expired, so neither sweeps nor reads treat one as absent. */
  ghost predicate Unexpired(s: State, key: string) {
    forall n <- s.stores :: key in s.stores[n] ==> !Expired(s.stores[n][key].expiresAt, s.clock)
  }

  /** In every state of the run the key is neither deleted nor wiped nor expired. */
  ghost predicate Undisturbed(p: Placement, s: State, actions: seq<Action>, key: string) {
    && (forall a <- actions :: Spares(a, key))
    && (forall i :: 0 <= i <= |actions| ==> Unexpired(Run(p, s, actions[..i]), key))
  }

  lemma UndisturbedInit(p: Placement, s: State, actions: seq<Action>, key: string)
    requires Undisturbed(p, s, actions, key) && actions != []
    ensures Undisturbed(p, s, actions[..|actions| - 1], key)
    ensures Spares(actions[|actions| - 1], key)
    ensures Unexpired(Run(p, s, actions[..|actions| - 1]), key)
  {
    var init := actions[..|actions| - 1];
    assert actions[|actions| - 1] in actions;
    forall i | 0 <= i <= |init| ensures init[..i] == actions[..i] {}
    assert forall a <- init :: a in actions;
  }
}
