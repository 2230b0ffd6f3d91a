/**
  Keys written only by quorum writes: no replica gets ahead of the primary, even when concurrent
  writes choose the same version, and when writes are serialised a version identifies a value.
 */
module QuorumValues {
  import opened Lists
  import opened Expiry
  import opened StoreSpec
  import opened Topology
  import opened Quorum
  import opened QuorumSafety

  ghost predicate QuorumOnly(a: Action, key: string) {
    Spares(a, key) && !(a.PlainWrite? && a.key == key)
  }

  ghost predicate Absent(stores: map<string, Items>, key: string) {
    forall n <- stores :: key !in stores[n]
  }

  // ---------- No replica gets ahead ----------

  /** The primary's version bounds a write: by one more while only the version has been read. */
  ghost predicate Bounded(p: Placement, s: State, key: string, w: Write)
    requires p.Proper(key)
  {
    if w.phase.VersionRead? then w.version == 1 || AtLeast(s, p.Primary(key), key, w.version - 1)
    else AtLeast(s, p.Primary(key), key, w.version)
  }

  ghost predicate PrimaryLeads(p: Placement, s: State, key: string)
    requires p.Proper(key)
  {
    && (forall n <- s.stores :: key in s.stores[n] ==> AtLeast(s, p.Primary(key), key, s.stores[n][key].version))
    && (forall id <- s.writes :: s.writes[id].key == key ==> Bounded(p, s, key, s.writes[id]))
    && (forall d <- s.sent :: d.0 in s.writes && !s.writes[d.0].phase.VersionRead?)
  }

  lemma BoundedAdvances(p: Placement, s: State, t: State, key: string, w: Write)
    requires p.Proper(key) && Advances(s, t, key) && Bounded(p, s, key, w)
    ensures Bounded(p, t, key, w)
  {
  }

  /** A copy changes only when a write reaches the primary or a replica. */
  lemma ChangedCopy(p: Placement, s: State, a: Action, key: string, n: string)
    requires p.Proper(key) && Enabled(p, s, a) && QuorumOnly(a, key)
    requires n in Next(p, s, a).stores && key in Next(p, s, a).stores[n]
    requires n in s.stores && key in s.stores[n] ==> Next(p, s, a).stores[n][key] != s.stores[n][key]
    ensures a.LocalWrite? || a.Deliver?
    ensures s.writes[a.id].key == key && n == if a.LocalWrite? then p.Primary(key) else a.node
    ensures var item := Next(p, s, a).stores[n][key];
            item.version == s.writes[a.id].version && item.value == s.writes[a.id].value
  {
  }

  lemma StepKeepsCopiesBounded(p: Placement, s: State, a: Action, key: string)
    requires p.Proper(key) && Enabled(p, s, a) && QuorumOnly(a, key) && Unexpired(s, key) && PrimaryLeads(p, s, key)
    ensures var t := Next(p, s, a);
            forall n <- t.stores :: key in t.stores[n] ==> AtLeast(t, p.Primary(key), key, t.stores[n][key].version)
  {
    var t := Next(p, s, a);
    StepAdvances(p, s, a, key);
    forall n <- t.stores | key in t.stores[n] ensures AtLeast(t, p.Primary(key), key, t.stores[n][key].version) {
      if n in s.stores && key in s.stores[n] && t.stores[n][key] == s.stores[n][key] {
        assert AtLeast(s, p.Primary(key), key, s.stores[n][key].version);
      } else {
        ChangedCopy(p, s, a, key, n);
        if a.Deliver? {
          assert Bounded(p, s, key, s.writes[a.id]);
          assert AtLeast(s, p.Primary(key), key, s.writes[a.id].version);
        }
      }
    }
  }

  lemma StepKeepsBounded(p: Placement, s: State, a: Action, key: string, id: nat)
    requires p.Proper(key) && Enabled(p, s, a) && QuorumOnly(a, key) && Unexpired(s, key) && PrimaryLeads(p, s, key)
    requires id in Next(p, s, a).writes && Next(p, s, a).writes[id].key == key
    ensures Bounded(p, Next(p, s, a), key, Next(p, s, a).writes[id])
  {
    StepAdvances(p, s, a, key);
    if id in s.writes {
      assert Bounded(p, s, key, s.writes[id]);
      BoundedAdvances(p, s, Next(p, s, a), key, s.writes[id]);
    }
  }

  lemma StepKeepsWritesBounded(p: Placement, s: State, a: Action, key: string)
    requires p.Proper(key) && Enabled(p, s, a) && QuorumOnly(a, key) && Unexpired(s, key) && PrimaryLeads(p, s, key)
    ensures var t := Next(p, s, a);
            forall id <- t.writes :: t.writes[id].key == key ==> Bounded(p, t, key, t.writes[id])
  {
    var t := Next(p, s, a);
    forall id <- t.writes | t.writes[id].key == key ensures Bounded(p, t, key, t.writes[id]) {
      StepKeepsBounded(p, s, a, key, id);
    }
  }

  lemma StepKeepsSent(p: Placement, s: State, a: Action)
    requires Enabled(p, s, a)
    requires forall d <- s.sent :: d.0 in s.writes && !s.writes[d.0].phase.VersionRead?
    ensures forall d <- Next(p, s, a).sent ::
              d.0 in Next(p, s, a).writes && !Next(p, s, a).writes[d.0].phase.VersionRead?
  {
  }

  ghost predicate AllQuorumOnly(actions: seq<Action>, key: string) {
    forall a <- actions :: QuorumOnly(a, key)
  }

  lemma QuorumOnlyInit(actions: seq<Action>, key: string)
    requires AllQuorumOnly(actions, key) && actions != []
    ensures AllQuorumOnly(actions[..|actions| - 1], key) && QuorumOnly(actions[|actions| - 1], key)
  {
    assert forall a <- actions[..|actions| - 1] :: a in actions;
    assert actions[|actions| - 1] in actions;
  }

  /**
    In every interleaving of quorum-only traffic, each version stored anywhere or in flight after its
    local write is at most the primary's stored version.
   */
  lemma {:induction false} NoReplicaAhead(p: Placement, stores: map<string, Items>, clock: Time, actions: seq<Action>,
                                          key: string)
    requires p.Proper(key) && Undisturbed(p, Init(stores, clock), actions, key) && AllQuorumOnly(actions, key)
    requires PrimaryLeads(p, Init(stores, clock), key)
    ensures PrimaryLeads(p, Run(p, Init(stores, clock), actions), key)
  {
    if actions != [] {
      var s0, init, a := Init(stores, clock), actions[..|actions| - 1], actions[|actions| - 1];
      UndisturbedInit(p, s0, actions, key);
      QuorumOnlyInit(actions, key);
      NoReplicaAhead(p, stores, clock, init, key);
      var s := Run(p, s0, init);
      if Enabled(p, s, a) {
        StepKeepsCopiesBounded(p, s, a, key);
        StepKeepsWritesBounded(p, s, a, key);
        StepKeepsSent(p, s, a);
      }
    }
  }

  // ---------- Versions identify values ----------

  /** A write that has reached the primary, as the source of a copy. */
  ghost predicate Origin(s: State, key: string, item: Item, id: nat) {
    && id in s.writes && s.writes[id].key == key && !s.writes[id].phase.VersionRead?
    && s.writes[id].version == item.version && s.writes[id].value == item.value
  }

  ghost predicate HasOrigin(s: State, key: string, item: Item) {
    exists id :: Origin(s, key, item, id)
  }

  ghost predicate CopiesTraced(p: Placement, s: State, key: string) {
    forall n <- s.stores :: key in s.stores[n] ==> n in p.group(key) && HasOrigin(s, key, s.stores[n][key])
  }

  ghost predicate ResponsesTraced(p: Placement, s: State, key: string) {
    forall id <- s.queries :: s.queries[id].key == key ==>
      forall x <- s.queries[id].responses :: x.node in p.group(key) && HasOrigin(s, key, x.item)
  }

  /** Of two writes one is finished, and a later one has the higher version. */
  ghost predicate Ordered(v: Write, w: Write) {
    && (v.phase.Finished? || w.phase.Finished?)
    && v.version != w.version
    && (w.phase.VersionRead? ==> v.version < w.version)
    && (v.phase.VersionRead? ==> w.version < v.version)
  }

  ghost predicate WritesOrdered(s: State, key: string) {
    forall i <- s.writes, j <- s.writes ::
      i != j && s.writes[i].key == key && s.writes[j].key == key ==> Ordered(s.writes[i], s.writes[j])
  }

  ghost predicate SentToGroup(p: Placement, s: State, key: string) {
    forall d <- s.sent :: d.0 in s.writes && (s.writes[d.0].key == key ==> d.1 in p.group(key))
  }

  ghost predicate HistoryTraced(s: State, key: string) {
    forall i :: 0 <= i < |s.acked| && s.acked[i].key == key ==>
      var e := s.acked[i];
      e.id in s.writes && s.writes[e.id].key == key && s.writes[e.id].version == e.version
        && s.writes[e.id].phase.Finished?
  }

  ghost predicate WritesTraced(p: Placement, s: State, key: string) {
    && CopiesTraced(p, s, key) && ResponsesTraced(p, s, key) && WritesOrdered(s, key)
    && SentToGroup(p, s, key) && HistoryTraced(s, key)
  }

  /** A write of the key begins only when every earlier one is finished. */
  ghost predicate BeginsAlone(s: State, a: Action, key: string) {
    a.BeginWrite? && a.key == key ==> forall id <- s.writes :: s.writes[id].key == key ==> s.writes[id].phase.Finished?
  }

  ghost predicate Serialised(p: Placement, s: State, actions: seq<Action>, key: string) {
    forall i :: 0 <= i < |actions| ==> BeginsAlone(Run(p, s, actions[..i]), actions[i], key)
  }

  lemma SerialisedInit(p: Placement, s: State, actions: seq<Action>, key: string)
    requires Serialised(p, s, actions, key) && actions != []
    ensures Serialised(p, s, actions[..|actions| - 1], key)
    ensures BeginsAlone(Run(p, s, actions[..|actions| - 1]), actions[|actions| - 1], key)
  {
    var init := actions[..|actions| - 1];
    forall i | 0 <= i < |init| ensures BeginsAlone(Run(p, s, init[..i]), init[i], key) {
      assert init[..i] == actions[..i] && init[i] == actions[i];
    }
  }

  /** Writes keep their key, version and value, and never return to reading the version. */
  ghost predicate WritesPersist(s: State, t: State) {
    forall id <- s.writes :: id in t.writes && SameWrite(s.writes[id], t.writes[id])
  }

  /** The same write, at the same or a later phase. */
  predicate SameWrite(w: Write, v: Write) {
    && v.key == w.key && v.value == w.value && v.expiresAt == w.expiresAt && v.version == w.version
    && (v.phase.VersionRead? ==> w.phase.VersionRead?) && (w.phase.Finished? ==> v.phase.Finished?)
  }

  /** The write an action starts or moves on. */
  function Author(a: Action): Option<nat> {
    match a
    case BeginWrite(id, _, _, _) => Some(id)
    case LocalWrite(id) => Some(id)
    case Send(id) => Some(id)
    case Ack(id) => Some(id)
    case GiveUp(id) => Some(id)
    case AnswerWrite(id) => Some(id)
    case _ => None
  }

  lemma OtherWritesStay(p: Placement, s: State, a: Action, id: nat)
    requires Enabled(p, s, a) && id in s.writes && Author(a) != Some(id)
    ensures id in Next(p, s, a).writes && Next(p, s, a).writes[id] == s.writes[id]
  {
  }

  lemma OwnWritePersists(p: Placement, s: State, a: Action, id: nat)
    requires Enabled(p, s, a) && id in s.writes && Author(a) == Some(id)
    ensures id in Next(p, s, a).writes && SameWrite(s.writes[id], Next(p, s, a).writes[id])
  {
  }

  lemma WritePersists(p: Placement, s: State, a: Action, id: nat)
    requires Enabled(p, s, a) && id in s.writes
    ensures id in Next(p, s, a).writes && SameWrite(s.writes[id], Next(p, s, a).writes[id])
  {
    if Author(a) == Some(id) {
      OwnWritePersists(p, s, a, id);
    } else {
      OtherWritesStay(p, s, a, id);
    }
  }

  lemma StepPersists(p: Placement, s: State, a: Action)
    requires Enabled(p, s, a)
    ensures WritesPersist(s, Next(p, s, a))
  {
    forall id <- s.writes ensures id in Next(p, s, a).writes && SameWrite(s.writes[id], Next(p, s, a).writes[id]) {
      WritePersists(p, s, a, id);
    }
  }

  lemma OriginPersists(s: State, t: State, key: string, item: Item)
    requires WritesPersist(s, t) && HasOrigin(s, key, item)
    ensures HasOrigin(t, key, item)
  {
    var id :| Origin(s, key, item, id);
    assert Origin(t, key, item, id);
  }

  lemma StepKeepsCopiesTraced(p: Placement, s: State, a: Action, key: string)
    requires p.Proper(key) && Enabled(p, s, a) && QuorumOnly(a, key)
    requires CopiesTraced(p, s, key) && SentToGroup(p, s, key) && PrimaryLeads(p, s, key)
    ensures CopiesTraced(p, Next(p, s, a), key)
  {
    var t := Next(p, s, a);
    StepPersists(p, s, a);
    forall n <- t.stores | key in t.stores[n] ensures n in p.group(key) && HasOrigin(t, key, t.stores[n][key]) {
      if n in s.stores && key in s.stores[n] && t.stores[n][key] == s.stores[n][key] {
        OriginPersists(s, t, key, s.stores[n][key]);
      } else {
        ChangedCopy(p, s, a, key, n);
        assert Origin(t, key, t.stores[n][key], a.id);
      }
    }
  }

  lemma LocalResponseTraced(p: Placement, s: State, node: string, key: string)
    requires CopiesTraced(p, s, key)
    ensures forall x <- LocalResponse(s, node, key) :: x.node in p.group(key) && HasOrigin(s, key, x.item)
  {
  }

  lemma StepKeepsResponsesTraced(p: Placement, s: State, a: Action, key: string)
    requires p.Proper(key) && Enabled(p, s, a) && CopiesTraced(p, s, key) && ResponsesTraced(p, s, key)
    ensures ResponsesTraced(p, Next(p, s, a), key)
  {
    var t := Next(p, s, a);
    StepPersists(p, s, a);
    forall id <- t.queries, x <- t.queries[id].responses | t.queries[id].key == key
      ensures x.node in p.group(key) && HasOrigin(t, key, x.item)
    {
      if id in s.queries && x in s.queries[id].responses {
        OriginPersists(s, t, key, x.item);
      } else {
        NewResponse(p, s, a, id, x);
        LocalResponseTraced(p, s, x.node, key);
        OriginPersists(s, t, key, x.item);
      }
    }
  }

  lemma NewResponse(p: Placement, s: State, a: Action, id: nat, x: Response)
    requires Enabled(p, s, a) && id in Next(p, s, a).queries && x in Next(p, s, a).queries[id].responses
    requires id in s.queries ==> x !in s.queries[id].responses
    ensures x in LocalResponse(s, x.node, Next(p, s, a).queries[id].key)
  {
  }

  lemma StepKeepsOrdered(p: Placement, s: State, a: Action, key: string, i: nat, j: nat)
    requires p.Proper(key) && Enabled(p, s, a) && Unexpired(s, key) && BeginsAlone(s, a, key)
    requires PrimaryLeads(p, s, key) && WritesOrdered(s, key) && WritesPersist(s, Next(p, s, a))
    requires var t := Next(p, s, a);
             i in t.writes && j in t.writes && i != j && t.writes[i].key == key && t.writes[j].key == key
    ensures Ordered(Next(p, s, a).writes[i], Next(p, s, a).writes[j])
  {
    if i in s.writes && j in s.writes {
      assert Ordered(s.writes[i], s.writes[j]);
    } else if i in s.writes {
      BegunIsNewest(p, s, a, key, i);
    } else {
      BegunIsNewest(p, s, a, key, j);
    }
  }

  lemma StepKeepsWritesOrdered(p: Placement, s: State, a: Action, key: string)
    requires p.Proper(key) && Enabled(p, s, a) && Unexpired(s, key) && BeginsAlone(s, a, key)
    requires PrimaryLeads(p, s, key) && WritesOrdered(s, key)
    ensures WritesOrdered(Next(p, s, a), key)
  {
    var t := Next(p, s, a);
    StepPersists(p, s, a);
    forall i <- t.writes, j <- t.writes | i != j && t.writes[i].key == key && t.writes[j].key == key
      ensures Ordered(t.writes[i], t.writes[j])
    {
      StepKeepsOrdered(p, s, a, key, i, j);
    }
  }

  /** A write that begins alone chooses a version above all earlier ones. */
  lemma BegunIsNewest(p: Placement, s: State, a: Action, key: string, i: nat)
    requires p.Proper(key) && Enabled(p, s, a) && a.BeginWrite? && a.key == key
    requires Unexpired(s, key) && BeginsAlone(s, a, key) && PrimaryLeads(p, s, key)
    requires i in s.writes && s.writes[i].key == key
    ensures Next(p, s, a).writes[a.id].version > s.writes[i].version && s.writes[i].phase.Finished?
  {
    assert Bounded(p, s, key, s.writes[i]);
    assert AtLeast(s, p.Primary(key), key, s.writes[i].version);
  }

  lemma StepKeepsRoutes(p: Placement, s: State, a: Action, key: string)
    requires Enabled(p, s, a) && SentToGroup(p, s, key) && HistoryTraced(s, key)
    ensures SentToGroup(p, Next(p, s, a), key) && HistoryTraced(Next(p, s, a), key)
  {
    StepPersists(p, s, a);
    var t := Next(p, s, a);
    forall d <- t.sent ensures d.0 in t.writes && (t.writes[d.0].key == key ==> d.1 in p.group(key)) {
      assert d in s.sent || a.Send?;
    }
    assert t.acked == s.acked || (a.AnswerWrite? && t.acked[..|s.acked|] == s.acked && |t.acked| == |s.acked| + 1);
  }

  lemma {:induction false} RunTraced(p: Placement, stores: map<string, Items>, clock: Time, actions: seq<Action>,
                                     key: string)
    requires p.Proper(key) && Undisturbed(p, Init(stores, clock), actions, key) && AllQuorumOnly(actions, key)
    requires Absent(stores, key) && Serialised(p, Init(stores, clock), actions, key)
    ensures PrimaryLeads(p, Run(p, Init(stores, clock), actions), key)
    ensures WritesTraced(p, Run(p, Init(stores, clock), actions), key)
  {
    var s0 := Init(stores, clock);
    NoReplicaAhead(p, stores, clock, actions, key);
    if actions != [] {
      var init, a := actions[..|actions| - 1], actions[|actions| - 1];
      UndisturbedInit(p, s0, actions, key);
      QuorumOnlyInit(actions, key);
      SerialisedInit(p, s0, actions, key);
      RunTraced(p, stores, clock, init, key);
      var s := Run(p, s0, init);
      if Enabled(p, s, a) {
        StepKeepsCopiesTraced(p, s, a, key);
        StepKeepsResponsesTraced(p, s, a, key);
        StepKeepsWritesOrdered(p, s, a, key);
        StepKeepsRoutes(p, s, a, key);
      }
    }
  }

  /** Across the whole cluster, copies of one version carry one value. */
  lemma VersionsIdentifyValues(p: Placement, stores: map<string, Items>, clock: Time, actions: seq<Action>,
                               key: string, m: string, n: string)
    requires p.Proper(key) && Undisturbed(p, Init(stores, clock), actions, key) && AllQuorumOnly(actions, key)
    requires Absent(stores, key) && Serialised(p, Init(stores, clock), actions, key)
    requires var s := Run(p, Init(stores, clock), actions);
             && m in s.stores && key in s.stores[m] && n in s.stores && key in s.stores[n]
             && s.stores[m][key].version == s.stores[n][key].version
    ensures var s := Run(p, Init(stores, clock), actions); s.stores[m][key].value == s.stores[n][key].value
  {
    RunTraced(p, stores, clock, actions, key);
    var s := Run(p, Init(stores, clock), actions);
    SameVersionSameValue(s, key, s.stores[m][key], s.stores[n][key]);
  }

  lemma SameVersionSameValue(s: State, key: string, x: Item, y: Item)
    requires WritesOrdered(s, key) && HasOrigin(s, key, x) && HasOrigin(s, key, y) && x.version == y.version
    ensures x.value == y.value
  {
    var i :| Origin(s, key, x, i);
    var j :| Origin(s, key, y, j);
    assert i != j ==> Ordered(s.writes[i], s.writes[j]);
  }

  /**
    Read-after-write on values, at any reader: a quorum read that began after a write was
    acknowledged and answers before a newer write has reached the primary returns that write's value.
   */
  lemma QuorumReadReturnsAckedValue(p: Placement, stores: map<string, Items>, clock: Time, actions: seq<Action>,
                                    key: string, id: nat, i: nat)
    requires p.Proper(key) && Undisturbed(p, Init(stores, clock), actions, key) && AllQuorumOnly(actions, key)
    requires Absent(stores, key) && Serialised(p, Init(stores, clock), actions, key)
    requires var s := Run(p, Init(stores, clock), actions);
             && id in s.queries && s.queries[id].key == key && s.queries[id].answer.Some?
             && i < |s.acked| && i < s.queries[id].seen && s.acked[i].key == key
             && forall j <- s.writes :: s.writes[j].key == key && !s.writes[j].phase.VersionRead?
                                        ==> s.writes[j].version <= s.acked[i].version
    ensures var s := Run(p, Init(stores, clock), actions);
            && s.acked[i].id in s.writes
            && s.queries[id].answer.value.item.version == s.acked[i].version
            && s.queries[id].answer.value.item.value == s.writes[s.acked[i].id].value
  {
    var s := Run(p, Init(stores, clock), actions);
    RunTraced(p, stores, clock, actions, key);
    RunKeepsInv(p, stores, clock, actions, key);
    var r, e := s.queries[id], s.acked[i];
    assert ReadOk(p, s.acked, r);
    assert forall x <- r.responses :: x.node == r.reader ==> r.reader in p.group(key);
    QuorumReadSeesAckedWrite(p, stores, clock, actions, key, id, i);
    BestIsNewest(r.responses);
    var x := r.answer.value.item;
    assert HasOrigin(s, key, x);
    var j :| Origin(s, key, x, j);
    var acked := Item(s.writes[e.id].value, NEVER, e.version);
    assert Origin(s, key, acked, e.id);
    SameVersionSameValue(s, key, x, acked);
  }
}
