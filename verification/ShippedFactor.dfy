/** What the replication factor guarantees that every server is built with. */
module ShippedFactor {
  import opened Lists
  import opened Topology
  import F = Forwarding
  import O = QuorumOutsider
  import R = RingSpec

  const REPLICATION_FACTOR := 2

  /**
    A key has at most one replica, so requests go nowhere in circles, whatever nodes believe of each other and
    of themselves.
   */
  lemma RequestsEnd(r: R.RingState, hash: string -> R.Point, key: string, view: (string, string) -> bool,
                    holds: string -> bool)
    requires r.WellFormed()
    ensures var e := F.Env(Placed(r, hash, REPLICATION_FACTOR).group(key), view, holds);
            && (forall net, path :: F.GetEnds(e, net, path))
            && (forall net, path :: F.WriteEnds(e, net, path))
  {
    var group := Group(r, hash(key), REPLICATION_FACTOR);
    var e := F.Env(group, view, holds);
    GroupAmongNodes(r, hash(key), REPLICATION_FACTOR);
    GroupAtMostFactor(r, hash(key), REPLICATION_FACTOR);
    assert Placed(r, hash, REPLICATION_FACTOR).group(key) == group;
    F.OneReplicaNoCircles(e);
    F.ReadsEndIff(e);
    forall net, path ensures F.WriteEnds(e, net, path) {
      F.WriteDone(e, net, path, F.WriteRank(e, F.Last(path)));
      assert !F.Write(e, net, path, F.WriteRank(e, F.Last(path))).Diverged?;
    }
  }

  lemma HasPoints(r: R.RingState)
    requires r.Faithful() && r.Populated() && r.nodes != map[]
    ensures r.owner != map[]
  {
    var id :| id in r.nodes;
    var p :| p in r.points(id);
    assert p in r.owner;
  }

  lemma GroupOfTwo(r: R.RingState, hash: string -> R.Point, key: string)
    requires r.Faithful() && r.Populated() && r.nodes != map[]
    ensures var p := Placed(r, hash, REPLICATION_FACTOR);
            && p.Proper(key) && (forall n <- p.group(key) :: n in r.nodes)
            && |p.group(key)| == if |r.nodes| == 1 then 1 else 2
  {
    HasPoints(r);
    RingPlacesProperly(r, hash, REPLICATION_FACTOR, key);
    R.SomeNode(r.nodes);
  }

  /**
    Quorum reads are fresh for every reader as soon as two nodes are registered, and with a single node for that
    node only.
   */
  lemma QuorumReadsFresh(r: R.RingState, hash: string -> R.Point, key: string, reader: string)
    requires r.Faithful() && r.Populated() && r.nodes != map[]
    ensures O.AlwaysFresh(Placed(r, hash, REPLICATION_FACTOR), key, reader) <==> |r.nodes| >= 2 || reader in r.nodes
  {
    var p := Placed(r, hash, REPLICATION_FACTOR);
    GroupOfTwo(r, hash, key);
    R.SomeNode(r.nodes);
    O.QuorumReadsFreshIff(p, key, reader);
    if |r.nodes| == 1 {
      SoleMember(r, p.group(key), reader);
    }
  }

  lemma SoleMember(r: R.RingState, group: seq<string>, reader: string)
    requires |r.nodes| == 1 && |group| == 1 && group[0] in r.nodes
    ensures reader in group <==> reader in r.nodes
  {
    assert r.nodes.Keys == {group[0]} by {
      var rest := r.nodes.Keys - {group[0]};
      assert |rest| == 0;
    }
  }
}
