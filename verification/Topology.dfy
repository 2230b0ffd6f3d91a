/**
  What the protocols assume of their surroundings: which nodes hold a key, and what can happen to a
  call from one node to another.
 */
module Topology {
  import opened Lists
  import R = RingSpec

  /** For each key its primary followed by its replicas; no nodes at all while the ring is empty. */
  datatype Placement = Placement(group: string -> seq<string>)
  {
    ghost predicate Proper(key: string) {
      group(key) != [] && Distinct(group(key))
    }

    function Primary(key: string): string
      requires group(key) != []
    {
      group(key)[0]
    }
  }

  /** A node-to-node call: never applied, applied with the reply lost, or applied and answered. */
  datatype Outcome = Lost | Unanswered | Replied

  /** The placement a ring gives: `Lookup` followed by `Replicas`. */
  ghost function Placed(r: R.RingState, hash: string -> R.Point, factor: int): Placement {
    Placement(key => Group(r, hash(key), factor))
  }

  ghost function Group(r: R.RingState, h: R.Point, factor: int): seq<string> {
    var primary := r.Lookup(h);
    if primary.None? then [] else [primary.value] + r.Replicas(h, factor)
  }

  lemma GroupAmongNodes(r: R.RingState, h: R.Point, factor: int)
    requires r.WellFormed()
    ensures Group(r, h, factor) != [] <==> r.owner != map[]
    ensures Distinct(Group(r, h, factor)) && forall n <- Group(r, h, factor) :: n in r.nodes
  {
    R.LookupNoneIff(r, h);
    if r.owner != map[] {
      R.ReplicasFollowPrimary(r, h, factor);
    }
  }

  lemma AmongSize(ids: seq<string>, registered: nat, factor: int)
    ensures |R.ReplicasAmong(ids, registered, factor)| + 1 <= R.Max(factor, 1)
  {
  }

  lemma GroupAtMostFactor(r: R.RingState, h: R.Point, factor: int)
    ensures |Group(r, h, factor)| <= R.Max(factor, 1)
  {
    AmongSize(r.Prefs(h), |r.nodes|, factor);
  }

  lemma GroupSize(r: R.RingState, h: R.Point, factor: int)
    requires r.Faithful() && r.Populated()
    ensures |Group(r, h, factor)| == R.Min(R.Max(factor, 1), |r.nodes|)
  {
    if r.nodes == map[] {
      NoNodesNoGroup(r, h, factor);
    } else {
      R.ReplicasCount(r, h, factor);
      assert |r.nodes| > 0;
    }
  }

  lemma NoNodesNoGroup(r: R.RingState, h: R.Point, factor: int)
    requires r.WellFormed() && r.nodes == map[]
    ensures Group(r, h, factor) == [] && |r.nodes| == 0
  {
    assert r.owner == map[] by {
      assert forall p <- r.owner :: r.owner[p] in r.nodes;
    }
    R.LookupNoneIff(r, h);
  }

  lemma PlacedGroup(r: R.RingState, hash: string -> R.Point, factor: int, key: string)
    ensures Placed(r, hash, factor).group(key) == Group(r, hash(key), factor)
  {
  }

  /**
    A ring with points places every key properly on registered nodes; without collisions the group
    has the replication factor's size as long as there are that many nodes.
   */
  lemma RingPlacesProperly(r: R.RingState, hash: string -> R.Point, factor: int, key: string)
    requires r.WellFormed()
    ensures var p := Placed(r, hash, factor);
            && (p.Proper(key) <==> r.owner != map[])
            && (forall n <- p.group(key) :: n in r.nodes)
            && |p.group(key)| <= R.Max(factor, 1)
            && (r.Faithful() && r.Populated() ==> |p.group(key)| == R.Min(R.Max(factor, 1), |r.nodes|))
  {
    PlacedGroup(r, hash, factor, key);
    GroupAmongNodes(r, hash(key), factor);
    GroupAtMostFactor(r, hash(key), factor);
    if r.Faithful() && r.Populated() {
      GroupSize(r, hash(key), factor);
    }
  }
}
