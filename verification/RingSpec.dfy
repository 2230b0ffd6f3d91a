/**
  The consistent-hash ring as a value: which node owns which point, and in which clockwise order
  nodes are preferred for a key. `Ring` refines this model; the theorems about adding and removing
  nodes are proved here.
 */
module RingSpec {
  import opened Lists

  const RING_SIZE := 0x1_0000_0000

  type Point = p: nat | p < RING_SIZE

  datatype Node = Node(id: string, addr: string)

  function Min(a: int, b: int): int { if a < b then a else b }

  function Max(a: int, b: int): int { if a < b then b else a }

  // ---------- Clockwise order of points ----------

  /** How far clockwise from `h` the point `p` lies. */
  function Clockwise(h: Point, p: Point): nat {
    if h <= p then p - h else p + RING_SIZE - h
  }

  ghost predicate ClockwiseFrom(h: Point, w: seq<Point>) {
    forall i, j :: 0 <= i < j < |w| ==> Clockwise(h, w[i]) < Clockwise(h, w[j])
  }

  ghost predicate IsNearest(points: set<Point>, h: Point, p: Point) {
    p in points && forall q <- points :: Clockwise(h, p) <= Clockwise(h, q)
  }

  lemma {:induction false} NearestExists(points: set<Point>, h: Point)
    requires points != {}
    ensures exists p :: IsNearest(points, h, p)
  {
    var p :| p in points;
    if points == {p} {
      assert IsNearest(points, h, p);
    } else {
      NearestExists(points - {p}, h);
      var q :| IsNearest(points - {p}, h, q);
      assert IsNearest(points, h, if Clockwise(h, p) < Clockwise(h, q) then p else q);
    }
  }

  /** All of `points`, met in order on a clockwise walk from `h`. */
  ghost function Walk(points: set<Point>, h: Point): (w: seq<Point>)
    ensures forall p :: p in w <==> p in points
    ensures ClockwiseFrom(h, w)
    ensures |w| == |points|
  {
    if points == {} then [] else
      NearestExists(points, h);
      var p :| IsNearest(points, h, p);
      var t := Walk(points - {p}, h);
      WalkCons(points, h, p, t);
      [p] + t
  }

  lemma WalkCons(points: set<Point>, h: Point, p: Point, t: seq<Point>)
    requires IsNearest(points, h, p) && ClockwiseFrom(h, t)
    requires forall q :: q in t <==> q in points && q != p
    ensures ClockwiseFrom(h, [p] + t)
  {
    var w := [p] + t;
    forall i, j | 0 <= i < j < |w| ensures Clockwise(h, w[i]) < Clockwise(h, w[j]) {
      assert w[j] == t[j - 1];
      if i == 0 {
        assert t[j - 1] in t;
        ClockwiseInjective(h, p, t[j - 1]);
      } else {
        assert w[i] == t[i - 1];
      }
    }
  }

  lemma ClockwiseInjective(h: Point, p: Point, q: Point)
    ensures Clockwise(h, p) == Clockwise(h, q) ==> p == q
  {}

  /** A clockwise walk is determined by its points. */
  lemma {:induction false} WalkUnique(h: Point, v: seq<Point>, w: seq<Point>)
    requires ClockwiseFrom(h, v) && ClockwiseFrom(h, w)
    requires forall p :: p in v <==> p in w
    ensures v == w
  {
    assert v == [] <==> w == [] by {
      assert w != [] ==> w[0] in w;
      assert v != [] ==> v[0] in v;
    }
    if v != [] {
      assert v[0] in w;
      assert w[0] in v;
      assert v[0] == w[0];
      forall p ensures p in v[1..] <==> p in w[1..] {
        TailMembers(h, v, p);
        TailMembers(h, w, p);
      }
      WalkUnique(h, v[1..], w[1..]);
    }
  }

  lemma TailMembers(h: Point, w: seq<Point>, p: Point)
    requires w != [] && ClockwiseFrom(h, w)
    ensures p in w[1..] <==> p in w && p != w[0]
  {
    if p in w[1..] {
      var i :| 0 <= i < |w[1..]| && w[1..][i] == p;
      assert w[i + 1] == p;
    }
  }

  /** The points of `w` that lie in `kept`, in order. */
  ghost function Restrict(w: seq<Point>, kept: set<Point>): (v: seq<Point>)
    ensures forall p :: p in v <==> p in w && p in kept
  {
    if w == [] then [] else (if w[0] in kept then [w[0]] else []) + Restrict(w[1..], kept)
  }

  lemma {:induction false} RestrictClockwise(h: Point, w: seq<Point>, kept: set<Point>)
    requires ClockwiseFrom(h, w)
    ensures ClockwiseFrom(h, Restrict(w, kept))
  {
    if w != [] {
      RestrictClockwise(h, w[1..], kept);
      var r := Restrict(w[1..], kept);
      forall j | 0 <= j < |r| ensures Clockwise(h, w[0]) < Clockwise(h, r[j]) {
        assert r[j] in w[1..];
      }
    }
  }

  /** Some point belongs to the node. */
  ghost predicate OwnsAny(owner: map<Point, string>, id: string) {
    exists p :: p in owner && owner[p] == id
  }

  /** The owners of the points of a walk, one per point. */
  ghost function Owners(owner: map<Point, string>, w: seq<Point>): (s: seq<string>)
    requires forall p <- w :: p in owner
    ensures |s| == |w|
    ensures forall i :: 0 <= i < |w| ==> s[i] == owner[w[i]]
  {
    if w == [] then [] else [owner[w[0]]] + Owners(owner, w[1..])
  }

  /**
    In an ascending point list, starting at the first point not below `h` and wrapping around at the
    end meets the points in clockwise order from `h`.
   */
  lemma RotationIsWalk(points: seq<Point>, elems: set<Point>, h: Point, idx: nat)
    requires ClockwiseFrom(0, points) && idx <= |points|
    requires forall p :: p in points <==> p in elems
    requires forall i :: 0 <= i < idx ==> points[i] < h
    requires forall i :: idx <= i < |points| ==> points[i] >= h
    ensures points[idx..] + points[..idx] == Walk(elems, h)
  {
    var w := points[idx..] + points[..idx];
    forall i, j | 0 <= i < j < |w| ensures Clockwise(h, w[i]) < Clockwise(h, w[j]) {
      var m := |points| - idx;
      var a := if i < m then idx + i else i - m;
      var b := if j < m then idx + j else j - m;
      assert w[i] == points[a] && w[j] == points[b];
      if a < b {
        assert Clockwise(0, points[a]) < Clockwise(0, points[b]);
      }
    }
    forall p ensures p in w <==> p in points {
      assert points == points[..idx] + points[idx..];
    }
    WalkUnique(h, w, Walk(elems, h));
  }

  // ---------- The ring ----------

  datatype RingState = RingState(
    points: string -> set<Point>,
    nodes: map<string, Node>,
    owner: map<Point, string>)
  {
    function Added(node: Node): RingState {
      if node.id in nodes then this
      else this.(nodes := nodes[node.id := node], owner := Claim(owner, points(node.id), node.id))
    }

    function Removed(id: string): RingState {
      if id !in nodes then this
      else this.(nodes := nodes - {id}, owner := owner - points(id))
    }

    /** What every history of additions and removals keeps, collisions or not. */
    ghost predicate WellFormed() {
      && (forall id <- nodes :: nodes[id].id == id)
      && (forall p <- owner :: owner[p] in nodes && p in points(owner[p]))
    }

    /** No virtual point of a registered node has been taken or deleted by another node. */
    ghost predicate Faithful() {
      && WellFormed()
      && forall id <- nodes, p <- points(id) :: p in owner && owner[p] == id
    }

    /** Every registered node has at least one virtual point. */
    ghost predicate Populated() {
      forall id <- nodes :: points(id) != {}
    }

    /** The registered points that `RemoveNode(id)` deletes all belong to `id`. */
    ghost predicate Untangled(id: string) {
      forall p <- points(id) :: p in owner ==> owner[p] == id
    }

    /** Node IDs in clockwise order of first appearance from `h`: the preference list. */
    ghost function Prefs(h: Point): (ids: seq<string>)
      ensures forall id :: id in ids <==> OwnsAny(owner, id)
    {
      var w := Walk(owner.Keys, h);
      OwnersMembers(owner, w);
      Firsts(Owners(owner, w))
    }

    /** The ID of the node `Lookup` answers with; `nodes` holds its address. */
    ghost function Lookup(h: Point): Option<string> {
      var ids := Prefs(h);
      if ids == [] then None else Some(ids[0])
    }

    /** The IDs of the nodes `Replicas` answers with, in order. */
    ghost function Replicas(h: Point, factor: int): seq<string> {
      ReplicasAmong(Prefs(h), |nodes|, factor)
    }

    lemma OwnerRegistered(id: string)
      requires WellFormed() && OwnsAny(owner, id)
      ensures id in nodes
    {
      var p :| p in owner && owner[p] == id;
    }

    lemma PrefsRegistered(h: Point)
      requires WellFormed()
      ensures forall i :: 0 <= i < |Prefs(h)| ==> Prefs(h)[i] in nodes
    {
      var ids := Prefs(h);
      forall i | 0 <= i < |ids| ensures ids[i] in nodes {
        assert ids[i] in ids;
        OwnerRegistered(ids[i]);
      }
    }
  }

  /** Points of a new node are taken over from whoever owned them. */
  function Claim(owner: map<Point, string>, points: set<Point>, id: string): map<Point, string> {
    owner + map p | p in points :: id
  }

  function ReplicasAmong(ids: seq<string>, registered: nat, factor: int): seq<string> {
    if registered <= 1 || factor <= 1 || ids == [] then [] else ids[1..Min(factor, |ids|)]
  }

  function Empty(points: string -> set<Point>): RingState {
    RingState(points, map[], map[])
  }

  lemma OwnersMembers(owner: map<Point, string>, w: seq<Point>)
    requires forall p :: p in w <==> p in owner
    ensures forall id :: id in Owners(owner, w) <==> OwnsAny(owner, id)
  {
    forall id ensures id in Owners(owner, w) <==> OwnsAny(owner, id) {
      if OwnsAny(owner, id) {
        var p :| p in owner && owner[p] == id;
        var i :| 0 <= i < |w| && w[i] == p;
        assert Owners(owner, w)[i] == id;
      }
    }
  }

  lemma OperationsKeepWellFormed(r: RingState, node: Node, id: string)
    requires r.WellFormed()
    ensures r.Added(node).WellFormed() && r.Removed(id).WellFormed()
  {
    var a, d := r.Added(node), r.Removed(id);
    forall x ensures a.points(x) == r.points(x) == d.points(x) {}
    forall p <- d.owner ensures d.owner[p] in d.nodes && p in d.points(d.owner[p]) {
      assert p in r.owner;
    }
  }

  // ---------- Lookup ----------

  /** `Lookup` fails on an empty ring only. */
  lemma LookupNoneIff(r: RingState, h: Point)
    requires r.WellFormed()
    ensures r.Lookup(h).None? <==> r.owner == map[]
  {
    var w := Walk(r.owner.Keys, h);
    var ids := r.Prefs(h);
    assert ids != [] ==> OwnsAny(r.owner, ids[0]);
    if r.owner != map[] {
      var p :| p in r.owner;
      assert OwnsAny(r.owner, r.owner[p]);
      assert r.owner[p] in ids;
    }
  }

  lemma LookupRegistered(r: RingState, h: Point)
    requires r.WellFormed() && r.owner != map[]
    ensures r.Lookup(h).Some?
    ensures r.Lookup(h).value in r.nodes && r.nodes[r.Lookup(h).value].id == r.Lookup(h).value
  {
    LookupNoneIff(r, h);
    r.PrefsRegistered(h);
  }

  /** The node's point that is met first from `h`. */
  ghost predicate FirstPointOf(owner: map<Point, string>, h: Point, id: string, p: Point) {
    && p in owner && owner[p] == id
    && forall q <- owner :: owner[q] == id ==> Clockwise(h, p) <= Clockwise(h, q)
  }

  lemma MetFirst(owner: map<Point, string>, h: Point, id: string, p: Point) returns (a: nat)
    requires FirstPointOf(owner, h, id, p)
    ensures var w := Walk(owner.Keys, h);
            a < |w| && w[a] == p && id !in Owners(owner, w)[..a]
  {
    var w := Walk(owner.Keys, h);
    a :| 0 <= a < |w| && w[a] == p;
    forall b | 0 <= b < a ensures Owners(owner, w)[b] != id {
      assert Clockwise(h, w[b]) < Clockwise(h, w[a]);
      assert w[b] in w;
    }
  }

  /** The preference list orders the nodes by how far clockwise their first points lie. */
  lemma PrefsByDistance(r: RingState, h: Point, i: nat, j: nat, p: Point, q: Point)
    requires i < |r.Prefs(h)| && j < |r.Prefs(h)|
    requires FirstPointOf(r.owner, h, r.Prefs(h)[i], p) && FirstPointOf(r.owner, h, r.Prefs(h)[j], q)
    ensures i < j <==> Clockwise(h, p) < Clockwise(h, q)
  {
    var w := Walk(r.owner.Keys, h);
    var s := Owners(r.owner, w);
    var a := MetFirst(r.owner, h, r.Prefs(h)[i], p);
    var b := MetFirst(r.owner, h, r.Prefs(h)[j], q);
    if a < b {
      FirstsInOrder(s, a, b, i, j);
    } else if b < a {
      FirstsInOrder(s, b, a, j, i);
    } else {
      FirstsDistinct(s);
    }
  }

  /** `Lookup` answers with the owner of the point nearest clockwise, across the wrap-around. */
  lemma LookupIsNearest(r: RingState, h: Point, p: Point)
    requires r.WellFormed() && IsNearest(r.owner.Keys, h, p)
    ensures r.Lookup(h) == Some(r.owner[p])
  {
    var w := Walk(r.owner.Keys, h);
    assert p in w && w[0] in w;
    assert w[0] in r.owner.Keys;
    ClockwiseInjective(h, p, w[0]);
    assert w[0] == p;
    var s := Owners(r.owner, w);
    assert Firsts(s)[0] == s[0] == r.owner[p];
  }

  // ---------- Minimal movement ----------

  /** Adding a node leaves each key where it is or gives it to the new node, whatever hashes collide. */
  lemma AddMovesOnlyToNewNode(r: RingState, node: Node, h: Point)
    requires r.WellFormed()
    ensures r.Added(node).WellFormed()
    ensures var now := r.Added(node).Lookup(h);
            now == r.Lookup(h) || now == Some(node.id)
  {
    OperationsKeepWellFormed(r, node, "");
    var a := r.Added(node);
    if a.owner == map[] {
      LookupNoneIff(r, h);
      LookupNoneIff(a, h);
    } else {
      NearestExists(a.owner.Keys, h);
      var p :| IsNearest(a.owner.Keys, h, p);
      AddedNearest(r, node, h, p);
      LookupIsNearest(a, h, p);
      if a.owner[p] != node.id {
        LookupIsNearest(r, h, p);
      }
    }
  }

  lemma AddedNearest(r: RingState, node: Node, h: Point, p: Point)
    requires IsNearest(r.Added(node).owner.Keys, h, p)
    ensures var a := r.Added(node);
            a.owner[p] != node.id ==> IsNearest(r.owner.Keys, h, p) && r.owner[p] == a.owner[p]
  {
  }

  /** Removing a node moves only the keys that node owned. */
  lemma RemoveMovesOnlyItsKeys(r: RingState, id: string, h: Point)
    requires r.WellFormed() && r.Untangled(id)
    ensures r.Removed(id).WellFormed()
    ensures r.Lookup(h).Some? && r.Lookup(h).value != id ==> r.Removed(id).Lookup(h) == r.Lookup(h)
  {
    OperationsKeepWellFormed(r, Node("", ""), id);
    LookupNoneIff(r, h);
    if r.owner != map[] {
      NearestExists(r.owner.Keys, h);
      var p :| IsNearest(r.owner.Keys, h, p);
      LookupIsNearest(r, h, p);
      if r.owner[p] != id {
        assert IsNearest(r.Removed(id).owner.Keys, h, p);
        LookupIsNearest(r.Removed(id), h, p);
      }
    }
  }

  // ---------- The whole preference list under removal and addition ----------

  lemma {:induction false} OwnersRestrict(owner: map<Point, string>, rest: map<Point, string>, w: seq<Point>,
                                          id: string)
    requires forall p <- w :: p in owner
    requires forall p <- w :: p in rest <==> owner[p] != id
    requires forall p <- w :: p in rest ==> rest[p] == owner[p]
    ensures Owners(rest, Restrict(w, rest.Keys)) == Without(Owners(owner, w), id)
  {
    if w != [] {
      var p, t := w[0], w[1..];
      OwnersRestrict(owner, rest, t, id);
      var kept := Restrict(t, rest.Keys);
      if p in rest {
        assert Restrict(w, rest.Keys) == [p] + kept;
        assert ([p] + kept)[1..] == kept;
      } else {
        assert Restrict(w, rest.Keys) == kept;
      }
    }
  }

  /** `RemoveNode` deletes the node from every preference list and changes nothing else. */
  lemma RemoveFiltersPrefs(r: RingState, id: string, h: Point)
    requires r.WellFormed() && r.Untangled(id)
    ensures r.Removed(id).Prefs(h) == Without(r.Prefs(h), id)
  {
    var d := r.Removed(id);
    var w := Walk(r.owner.Keys, h);
    if id in r.nodes {
      var v := Restrict(w, d.owner.Keys);
      RestrictClockwise(h, w, d.owner.Keys);
      WalkUnique(h, v, Walk(d.owner.Keys, h));
      OwnersRestrict(r.owner, d.owner, w, id);
      FirstsWithout(Owners(r.owner, w), id);
    } else {
      WithoutAbsent(r.Prefs(h), id);
    }
  }

  /** `AddNode` inserts the new node in the preference lists and keeps the order of the others. */
  lemma AddInsertsIntoPrefs(r: RingState, node: Node, h: Point)
    requires r.WellFormed() && node.id !in r.nodes && r.points(node.id) !! r.owner.Keys
    ensures r.Prefs(h) == Without(r.Added(node).Prefs(h), node.id)
    ensures r.points(node.id) != {} ==> node.id in r.Added(node).Prefs(h)
  {
    var a := r.Added(node);
    OperationsKeepWellFormed(r, node, "");
    AddRemoveRestoresIff(r, node);
    assert a.points(node.id) == r.points(node.id);
    assert a.Untangled(node.id);
    RemoveFiltersPrefs(a, node.id, h);
    if p :| p in r.points(node.id) {
      assert p in a.owner && a.owner[p] == node.id;
    }
  }

  /** Undoing an addition restores the ring exactly when the new node's points were all free. */
  lemma AddRemoveRestoresIff(r: RingState, node: Node)
    requires node.id !in r.nodes
    ensures r.Added(node).Removed(node.id) == r <==> r.points(node.id) !! r.owner.Keys
  {
    assert r.nodes[node.id := node] - {node.id} == r.nodes;
    ClaimAndDrop(r.owner, r.points(node.id), node.id);
  }

  /** Removing a node deletes exactly that node's ownership if and only if its points are untangled. */
  lemma RemoveDeletesOwnPointsIff(r: RingState, id: string)
    requires r.WellFormed() && id in r.nodes
    ensures r.Removed(id).owner == (map p | p in r.owner && r.owner[p] != id :: r.owner[p]) <==> r.Untangled(id)
  {
    var own := map p | p in r.owner && r.owner[p] != id :: r.owner[p];
    var left := r.Removed(id).owner;
    if p :| p in r.points(id) && p in r.owner && r.owner[p] != id {
      assert p in own && p !in left;
    } else {
      assert own == left;
    }
  }

  /**
    When the primary of a key is removed, `Lookup` answers with the node that was the key's first
    replica: the node to which requests are already sent while the primary is dead.
   */
  lemma FailoverTargetBecomesPrimary(r: RingState, h: Point)
    requires r.Faithful() && r.Populated() && r.nodes != map[]
    ensures r.Lookup(h).Some?
    ensures var replicas := r.Replicas(h, 2);
            r.Removed(r.Lookup(h).value).Lookup(h) == if replicas == [] then None else Some(replicas[0])
  {
    PrimaryLeaves(r, h);
    SecondIsFirstReplica(r.Prefs(h), |r.nodes|);
  }

  /** When the primary leaves, the preference list loses its head. */
  lemma PrimaryLeaves(r: RingState, h: Point)
    requires r.Faithful() && r.Populated() && r.nodes != map[]
    ensures |r.Prefs(h)| == |r.nodes| >= 1
    ensures r.Removed(r.Prefs(h)[0]).Prefs(h) == r.Prefs(h)[1..]
  {
    SomeNode(r.nodes);
    PrefsAreTheNodes(r, h);
    RemoveFiltersPrefs(r, r.Prefs(h)[0], h);
    WithoutHead(r.Prefs(h));
  }

  lemma SomeNode(nodes: map<string, Node>)
    requires nodes != map[]
    ensures |nodes| >= 1
  {
  }

  lemma SecondIsFirstReplica(ids: seq<string>, registered: nat)
    requires |ids| == registered >= 1
    ensures ReplicasAmong(ids, registered, 2) == if |ids| == 1 then [] else [ids[1]]
  {
  }

  lemma WithoutHead(s: seq<string>)
    requires s != [] && Distinct(s)
    ensures Without(s, s[0]) == s[1..]
  {
    WithoutAbsent(s[1..], s[0]);
  }

  // ---------- Replicas ----------

  lemma PrefsAreTheNodes(r: RingState, h: Point)
    requires r.Faithful() && r.Populated()
    ensures Distinct(r.Prefs(h))
    ensures forall id :: id in r.Prefs(h) <==> id in r.nodes
    ensures |r.Prefs(h)| == |r.nodes|
  {
    FirstsDistinct(Owners(r.owner, Walk(r.owner.Keys, h)));
    forall id ensures id in r.Prefs(h) <==> id in r.nodes {
      if id in r.nodes {
        var p :| p in r.points(id);
        assert r.owner[p] == id;
      }
    }
    DistinctLength(r.Prefs(h), r.nodes.Keys);
    assert |r.nodes.Keys| == |r.nodes|;
  }

  /** There are min(factor, nodes) - 1 replicas, and a primary whenever a node is registered. */
  lemma ReplicasCount(r: RingState, h: Point, factor: int)
    requires r.Faithful() && r.Populated() && r.nodes != map[]
    ensures r.Lookup(h).Some?
    ensures |r.Replicas(h, factor)| == if factor <= 1 then 0 else Min(factor, |r.nodes|) - 1
  {
    PrefsAreTheNodes(r, h);
    CountAmong(r.Prefs(h), |r.nodes|, factor);
  }

  lemma CountAmong(ids: seq<string>, registered: nat, factor: int)
    requires |ids| == registered >= 1
    ensures |ReplicasAmong(ids, registered, factor)| == if factor <= 1 then 0 else Min(factor, registered) - 1
  {
  }

  /** Replicas are pairwise distinct registered nodes, follow the primary clockwise, and exclude it. */
  lemma ReplicasFollowPrimary(r: RingState, h: Point, factor: int)
    requires r.WellFormed() && r.owner != map[]
    ensures r.Lookup(h).Some?
    ensures var ids := [r.Lookup(h).value] + r.Replicas(h, factor);
            ids <= r.Prefs(h) && Distinct(ids) && forall i :: 0 <= i < |ids| ==> ids[i] in r.nodes
  {
    var ids := r.Prefs(h);
    LookupNoneIff(r, h);
    FirstsDistinct(Owners(r.owner, Walk(r.owner.Keys, h)));
    r.PrefsRegistered(h);
    HeadAndReplicas(ids, |r.nodes|, factor);
    PrefixInherits(ids, [ids[0]] + ReplicasAmong(ids, |r.nodes|, factor), r.nodes.Keys);
  }

  lemma PrefixInherits(ids: seq<string>, group: seq<string>, nodes: set<string>)
    requires group <= ids && Distinct(ids) && forall i :: 0 <= i < |ids| ==> ids[i] in nodes
    ensures Distinct(group) && forall i :: 0 <= i < |group| ==> group[i] in nodes
  {
    assert group == ids[..|group|];
  }

  lemma HeadAndReplicas(ids: seq<string>, registered: nat, factor: int)
    requires ids != []
    ensures [ids[0]] + ReplicasAmong(ids, registered, factor) <= ids
  {
    if registered > 1 && factor > 1 {
      assert ids[..Min(factor, |ids|)] == [ids[0]] + ids[1..Min(factor, |ids|)];
    } else {
      assert [ids[0]] + [] == ids[..1];
    }
  }

  /** A larger replication factor only appends replicas. */
  lemma ReplicasGrow(r: RingState, h: Point, factor: int, more: int)
    requires factor <= more
    ensures r.Replicas(h, factor) <= r.Replicas(h, more)
  {
    MoreReplicas(r.Prefs(h), |r.nodes|, factor, more);
  }

  lemma MoreReplicas(ids: seq<string>, registered: nat, factor: int, more: int)
    requires factor <= more
    ensures ReplicasAmong(ids, registered, factor) <= ReplicasAmong(ids, registered, more)
  {
  }

  // ---------- Histories ----------

  datatype Op = Add(node: Node) | Remove(id: string)
  {
    function Id(): string { if Add? then node.id else id }
  }

  function Run(r: RingState, ops: seq<Op>): RingState {
    if ops == [] then r
    else
      var before := Run(r, ops[..|ops| - 1]);
      var op := ops[|ops| - 1];
      if op.Add? then before.Added(op.node) else before.Removed(op.id)
  }

  /** Virtual points of distinct nodes among `ids` do not collide. */
  ghost predicate NoCollisions(r: RingState, ids: set<string>) {
    forall a <- ids, b <- ids :: a != b ==> r.points(a) !! r.points(b)
  }

  /** Every run keeps ownership faithful as long as the nodes it mentions do not collide. */
  lemma {:induction false} RunFaithful(points: string -> set<Point>, ops: seq<Op>, ids: set<string>)
    requires NoCollisions(Empty(points), ids)
    requires forall op <- ops :: op.Id() in ids
    ensures Run(Empty(points), ops).Faithful()
    ensures Run(Empty(points), ops).nodes.Keys <= ids
    ensures Run(Empty(points), ops).points == points
  {
    var e := Empty(points);
    if ops != [] {
      var init, op := ops[..|ops| - 1], ops[|ops| - 1];
      assert op in ops;
      RunFaithful(points, init, ids);
      var r := Run(e, init);
      assert forall id :: r.points(id) == e.points(id);
      if op.Add? {
        AddKeepsFaithful(r, op.node);
      } else {
        RemoveKeepsFaithful(r, op.id);
      }
    }
  }

  lemma AddKeepsFaithful(r: RingState, node: Node)
    requires r.Faithful()
    requires forall id <- r.nodes :: id != node.id ==> r.points(id) !! r.points(node.id)
    ensures r.Added(node).Faithful()
  {
    OperationsKeepWellFormed(r, node, "");
    var a := r.Added(node);
    forall id <- a.nodes, p <- a.points(id) ensures p in a.owner && a.owner[p] == id {
      assert a.points(id) == r.points(id);
    }
  }

  lemma RemoveKeepsFaithful(r: RingState, id: string)
    requires r.Faithful()
    ensures r.Removed(id).Faithful()
  {
    OperationsKeepWellFormed(r, Node("", ""), id);
    var d := r.Removed(id);
    forall x <- d.nodes, p <- d.points(x) ensures p in d.owner && d.owner[p] == x {
      assert d.points(x) == r.points(x);
      assert p in r.owner && r.owner[p] == x;
      assert id in r.nodes ==> p !in r.points(id);
    }
  }

  /** A faithful ring is determined by the IDs registered on it. */
  lemma FaithfulDeterminesOwner(r: RingState, q: RingState)
    requires r.Faithful() && q.Faithful()
    requires r.points == q.points && r.nodes.Keys == q.nodes.Keys
    ensures r.owner == q.owner
  {
    forall id ensures r.points(id) == q.points(id) {}
    forall p ensures p in r.owner <==> p in q.owner {
      if p in r.owner { assert r.owner[p] in q.nodes.Keys; }
      if p in q.owner { assert q.owner[p] in r.nodes.Keys; }
    }
    forall p <- r.owner ensures r.owner[p] == q.owner[p] {
      assert r.owner[p] in q.nodes.Keys && p in q.points(r.owner[p]);
    }
  }

  /**
    Two processes whose histories end with the same set of node IDs agree, for every key, on the
    whole preference list and so on the primary and all replicas, whatever order they added peers in.
   */
  lemma HistoriesAgree(points: string -> set<Point>, ops: seq<Op>, ops': seq<Op>, ids: set<string>, h: Point)
    requires NoCollisions(Empty(points), ids)
    requires forall op <- ops :: op.Id() in ids
    requires forall op <- ops' :: op.Id() in ids
    requires Run(Empty(points), ops).nodes.Keys == Run(Empty(points), ops').nodes.Keys
    ensures var r, r' := Run(Empty(points), ops), Run(Empty(points), ops');
            && r.owner == r'.owner && r.Prefs(h) == r'.Prefs(h) && r.Lookup(h) == r'.Lookup(h)
            && forall factor :: r.Replicas(h, factor) == r'.Replicas(h, factor)
  {
    RunFaithful(points, ops, ids);
    RunFaithful(points, ops', ids);
    var r, r' := Run(Empty(points), ops), Run(Empty(points), ops');
    FaithfulDeterminesOwner(r, r');
    SameSize(r.nodes, r'.nodes);
    assert r.Prefs(h) == r'.Prefs(h);
  }

  lemma SameSize(nodes: map<string, Node>, nodes': map<string, Node>)
    requires nodes.Keys == nodes'.Keys
    ensures |nodes| == |nodes'|
  {
    assert |nodes| == |nodes.Keys| && |nodes'| == |nodes'.Keys|;
  }

  /** Two new nodes can be added in either order exactly when their points do not collide. */
  lemma AdditionsCommuteIff(r: RingState, a: Node, b: Node)
    requires a.id !in r.nodes && b.id !in r.nodes && a.id != b.id
    ensures r.Added(a).Added(b) == r.Added(b).Added(a) <==> r.points(a.id) !! r.points(b.id)
  {
    assert r.nodes[a.id := a][b.id := b] == r.nodes[b.id := b][a.id := a];
    ClaimsCommuteIff(r.owner, r.points(a.id), a.id, r.points(b.id), b.id);
  }

  lemma ClaimsCommuteIff(owner: map<Point, string>, ps: set<Point>, a: string, qs: set<Point>, b: string)
    requires a != b
    ensures Claim(Claim(owner, ps, a), qs, b) == Claim(Claim(owner, qs, b), ps, a) <==> ps !! qs
  {
    var x, y := Claim(Claim(owner, ps, a), qs, b), Claim(Claim(owner, qs, b), ps, a);
    if p :| p in ps && p in qs {
      assert x[p] == b && y[p] == a;
    } else {
      forall p ensures p in x <==> p in y {}
      forall p <- x ensures x[p] == y[p] {}
      assert x == y;
    }
  }

  /** `Replicas` indexes the point list unless the ring has at most one node or no replica is asked for. */
  ghost predicate Stranded(r: RingState) {
    |r.nodes| > 1 && r.owner == map[]
  }

  /** Removing a node strands the others exactly when two remain and its points cover every owned one. */
  lemma RemovalStrandsIff(r: RingState, id: string)
    requires id in r.nodes
    ensures Stranded(r.Removed(id)) <==> |r.nodes| > 2 && r.owner.Keys <= r.points(id)
  {
    assert |r.nodes - {id}| == |r.nodes| - 1 by {
      assert r.nodes == (r.nodes - {id})[id := r.nodes[id]];
    }
    ClaimAndDrop(r.owner, r.points(id), id);
  }

  lemma RunOfFour(r: RingState, a: Node, b: Node, c: Node, id: string)
    ensures Run(r, [Add(a), Add(b), Add(c), Remove(id)]) == r.Added(a).Added(b).Added(c).Removed(id)
  {
    RunThenOp(r, [], Add(a));
    RunThenOp(r, [Add(a)], Add(b));
    RunThenOp(r, [Add(a), Add(b)], Add(c));
    RunThenOp(r, [Add(a), Add(b), Add(c)], Remove(id));
    assert [] + [Add(a)] == [Add(a)] && [Add(a)] + [Add(b)] == [Add(a), Add(b)];
    assert [Add(a), Add(b)] + [Add(c)] == [Add(a), Add(b), Add(c)];
    assert [Add(a), Add(b), Add(c)] + [Remove(id)] == [Add(a), Add(b), Add(c), Remove(id)];
  }

  lemma AddedSize(r: RingState, node: Node)
    requires node.id !in r.nodes
    ensures |r.Added(node).nodes| == |r.nodes| + 1 && r.Added(node).nodes.Keys == r.nodes.Keys + {node.id}
    ensures r.Added(node).owner.Keys == r.owner.Keys + r.points(node.id) && r.Added(node).points == r.points
  {
    ClaimKeys(r.owner, r.points(node.id), node.id);
  }

  lemma ClaimKeys(owner: map<Point, string>, points: set<Point>, id: string)
    ensures Claim(owner, points, id).Keys == owner.Keys + points
  {
    var claimed := map p | p in points :: id;
    assert claimed.Keys == points;
    assert (owner + claimed).Keys == owner.Keys + claimed.Keys;
  }

  lemma ThreeAdded(e: RingState, a: Node, b: Node, c: Node)
    requires a.id != b.id && b.id != c.id && c.id != a.id && e.nodes == map[] && e.owner == map[]
    requires e.points(a.id) == e.points(b.id) == e.points(c.id)
    ensures var r := e.Added(a).Added(b).Added(c);
            a.id in r.nodes && |r.nodes| == 3 && r.owner.Keys == e.points(a.id) && r.points == e.points
  {
    FirstAdded(e, a);
    var r := e.Added(a);
    AddedSize(r, b);
    var s := r.Added(b);
    assert s.nodes.Keys == {a.id, b.id} && s.owner.Keys == e.points(a.id);
    AddedSize(s, c);
    assert a.id in s.Added(c).nodes.Keys;
  }

  lemma FirstAdded(e: RingState, a: Node)
    requires e.nodes == map[] && e.owner == map[]
    ensures var r := e.Added(a);
            |r.nodes| == 1 && r.nodes.Keys == {a.id} && r.owner.Keys == e.points(a.id) && r.points == e.points
  {
    AddedSize(e, a);
    assert e.nodes.Keys == {} && e.owner.Keys == {};
  }

  /** Three nodes whose points all collide are added, and the first one leaves. */
  lemma CollidersStrand(points: string -> set<Point>, a: Node, b: Node, c: Node)
    requires a.id != b.id && b.id != c.id && c.id != a.id
    requires points(a.id) == points(b.id) == points(c.id)
    ensures Stranded(Empty(points).Added(a).Added(b).Added(c).Removed(a.id))
  {
    ThreeAdded(Empty(points), a, b, c);
    RemovalStrandsIff(Empty(points).Added(a).Added(b).Added(c), a.id);
  }

  /** Stranded rings are reachable from the empty one. */
  lemma StrandedIsReachable(points: string -> set<Point>, a: Node, b: Node, c: Node)
    requires a.id != b.id && b.id != c.id && c.id != a.id
    requires points(a.id) == points(b.id) == points(c.id)
    ensures Stranded(Run(Empty(points), [Add(a), Add(b), Add(c), Remove(a.id)]))
  {
    CollidersStrand(points, a, b, c);
    RunOfFour(Empty(points), a, b, c, a.id);
  }

  lemma RunThenOp(r: RingState, ops: seq<Op>, op: Op)
    ensures Run(r, []) == r
    ensures Run(r, ops + [op]) == if op.Add? then Run(r, ops).Added(op.node) else Run(r, ops).Removed(op.id)
  {
    assert (ops + [op])[..|ops|] == ops;
  }

  /** A node that joins and leaves strands the others exactly when its points cover all of theirs. */
  lemma JoinAndLeaveStrandsIff(r: RingState, node: Node)
    requires node.id !in r.nodes && |r.nodes| > 1
    ensures Stranded(r.Added(node).Removed(node.id)) <==> r.owner.Keys <= r.points(node.id)
  {
    assert r.nodes[node.id := node] - {node.id} == r.nodes;
    ClaimAndDrop(r.owner, r.points(node.id), node.id);
  }

  lemma ClaimAndDrop(owner: map<Point, string>, points: set<Point>, id: string)
    ensures Claim(owner, points, id) - points == owner - points
    ensures owner - points == map[] <==> owner.Keys <= points
    ensures owner - points == owner <==> points !! owner.Keys
  {
    assert (owner - points).Keys == owner.Keys - points;
    if owner.Keys <= points {
      assert owner - points == map[];
    } else {
      var p :| p in owner.Keys && p !in points;
      assert p in owner - points;
    }
    assert (owner - points).Keys == owner.Keys ==> owner - points == owner;
  }

  /** A ring whose points never collided cannot be stranded. */
  lemma FaithfulNeverStranded(r: RingState)
    requires r.Faithful() && r.Populated()
    ensures !Stranded(r)
  {
    if r.nodes != map[] {
      var id :| id in r.nodes;
      var p :| p in r.points(id);
      assert p in r.owner;
    } else {
      assert |r.nodes| == 0;
    }
  }
}
