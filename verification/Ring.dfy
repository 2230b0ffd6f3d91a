/** The ring as the server uses it: a mutable object whose operations refine `RingSpec`. */
module Ring {
  import opened Lists
  import opened RingSpec

  const DIGITS := "0123456789"

  predicate Digits(s: string) {
    forall c <- s :: c in DIGITS
  }

  /** `strconv.Itoa` on a non-negative number. */
  function Itoa(n: nat): (s: string)
    ensures s != [] && Digits(s)
  {
    if n < 10 then [DIGITS[n]] else Itoa(n / 10) + [DIGITS[n % 10]]
  }

  function NodePointKey(id: string, replica: nat): string {
    id + "#" + Itoa(replica)
  }

  lemma {:induction false} ItoaInjective(m: nat, n: nat)
    requires Itoa(m) == Itoa(n)
    ensures m == n
  {
    assert Itoa(m)[|Itoa(m)| - 1] == DIGITS[m % 10];
    assert Itoa(n)[|Itoa(n)| - 1] == DIGITS[n % 10];
    assert m % 10 == n % 10;
    if m >= 10 && n >= 10 {
      assert Itoa(m)[..|Itoa(m)| - 1] == Itoa(m / 10);
      assert Itoa(n)[..|Itoa(n)| - 1] == Itoa(n / 10);
      ItoaInjective(m / 10, n / 10);
    }
  }

  /** The number that decimal digits denote. */
  ghost function Value(s: string): int {
    if s == "" then 0 else Value(s[..|s| - 1]) * 10 + (s[|s| - 1] as int - '0' as int)
  }

  lemma {:induction false} ItoaIsDecimal(n: nat)
    ensures Value(Itoa(n)) == n
  {
    var s := Itoa(n);
    assert forall d: nat :: d < 10 ==> DIGITS[d] as int == '0' as int + d;
    if n < 10 {
      assert s[..0] == "";
    } else {
      ItoaIsDecimal(n / 10);
      assert s[..|s| - 1] == Itoa(n / 10);
    }
  }

  lemma AfterSharp(b: string, y: string, i: nat)
    requires |b| < i < |b + "#" + y|
    ensures (b + "#" + y)[i] in y
  {
    assert (b + "#" + y)[i] == y[i - |b| - 1];
  }

  /** No other '#' comes after the one that digits follow. */
  lemma LastSharp(a: string, x: string, b: string, y: string)
    requires a + "#" + x == b + "#" + y && Digits(y)
    ensures |a| <= |b|
  {
    assert (a + "#" + x)[|a|] == '#' && '#' !in DIGITS;
    if |a| > |b| {
      AfterSharp(b, y, |a|);
    }
  }

  lemma SplitAtSharp(a: string, x: string, b: string, y: string)
    requires a + "#" + x == b + "#" + y && |a| == |b|
    ensures a == b && x == y
  {
    var s := a + "#" + x;
    assert a == s[..|a|] && x == s[|a| + 1..];
    assert b == s[..|a|] && y == s[|a| + 1..];
  }

  /** Distinct virtual nodes have distinct names, even if node IDs contain '#': only hashes collide. */
  lemma NodePointKeyInjective(a: string, i: nat, b: string, j: nat)
    requires NodePointKey(a, i) == NodePointKey(b, j)
    ensures a == b && i == j
  {
    LastSharp(a, Itoa(i), b, Itoa(j));
    LastSharp(b, Itoa(j), a, Itoa(i));
    SplitAtSharp(a, Itoa(i), b, Itoa(j));
    ItoaInjective(i, j);
  }

  /** The points at which `virtualNodes` virtual nodes put a node on the ring. */
  ghost function VirtualPoints(hash: string -> Point, virtualNodes: nat): string -> set<Point> {
    id => FirstPoints(hash, id, virtualNodes)
  }

  /** The points of the first `n` virtual nodes. */
  ghost function FirstPoints(hash: string -> Point, id: string, n: nat): set<Point> {
    set i | 0 <= i < n :: hash(NodePointKey(id, i))
  }

  lemma NextPoint(hash: string -> Point, id: string, n: nat)
    ensures FirstPoints(hash, id, n + 1) == FirstPoints(hash, id, n) + {hash(NodePointKey(id, n))}
  {
    assert forall p ::
        p in FirstPoints(hash, id, n + 1) <==> p in FirstPoints(hash, id, n) || p == hash(NodePointKey(id, n));
  }

  /** With at least one virtual node every registered node has a point. */
  lemma VirtualPointsPopulate(r: RingState, hash: string -> Point, virtualNodes: nat)
    requires virtualNodes > 0 && r.points == VirtualPoints(hash, virtualNodes)
    ensures r.Populated()
  {
    forall id <- r.nodes ensures r.points(id) != {} {
      assert hash(NodePointKey(id, 0)) in VirtualPoints(hash, virtualNodes)(id);
    }
  }

  /** One of the node's virtual nodes hashes to this point. */
  ghost predicate HashesTo(hash: string -> Point, virtualNodes: nat, id: string, p: Point) {
    exists i: nat | i < virtualNodes :: p == hash(id + "#" + Itoa(i))
  }

  lemma FirstPointsAre(hash: string -> Point, id: string, n: nat)
    ensures forall p :: p in FirstPoints(hash, id, n) <==> HashesTo(hash, n, id, p)
  {
    forall p ensures p in FirstPoints(hash, id, n) <==> HashesTo(hash, n, id, p) {
      if p in FirstPoints(hash, id, n) {
        var i: nat :| i < n && p == hash(NodePointKey(id, i));
        assert p == hash(id + "#" + Itoa(i));
      }
      if HashesTo(hash, n, id, p) {
        var i: nat :| i < n && p == hash(id + "#" + Itoa(i));
        assert p == hash(NodePointKey(id, i));
      }
    }
  }

  /** Of these points, the first at or after `h`, or the very first if there is none. */
  ghost predicate NextAround(points: set<Point>, h: Point, p: Point) {
    p in points && forall q <- points :: if p >= h then q < h || p <= q else q < h && p <= q
  }

  /** `ids` are registered and `found` are their nodes. */
  ghost predicate Named(nodes: map<string, Node>, ids: seq<string>, found: seq<Node>) {
    |ids| == |found| && forall i :: 0 <= i < |ids| ==> ids[i] in nodes && found[i] == nodes[ids[i]]
  }

  class Ring {
    const hash: string -> Point
    const virtualNodes: nat
    var nodes: map<string, Node>
    var pointToNode: map<Point, string>
    var points: seq<Point>

    /** The ring as a value. */
    ghost function State(): RingState
      reads this
    {
      RingState(VirtualPoints(hash, virtualNodes), nodes, pointToNode)
    }

    ghost predicate Valid()
      reads this
    {
      && virtualNodes > 0
      && State().WellFormed()
      && points == Walk(pointToNode.Keys, 0)
    }

    constructor (hash: string -> Point, virtualNodes: int)
      ensures Valid()
      ensures State() == Empty(VirtualPoints(hash, this.virtualNodes))
      ensures this.hash == hash && this.virtualNodes == if virtualNodes <= 0 then 150 else virtualNodes
    {
      this.hash := hash;
      this.virtualNodes := if virtualNodes <= 0 then 150 else virtualNodes;
      nodes, pointToNode, points := map[], map[], [];
    }

    method AddNode(node: Node)
      requires Valid()
      modifies this
      ensures Valid() && State() == old(State()).Added(node)
      ensures node.id in old(nodes) ==> nodes == old(nodes) && pointToNode == old(pointToNode)
      ensures node.id !in old(nodes) ==> nodes == old(nodes)[node.id := node]
      ensures node.id !in old(nodes) ==> forall p ::
                if HashesTo(hash, virtualNodes, node.id, p) then p in pointToNode && pointToNode[p] == node.id
                else if p in old(pointToNode) then p in pointToNode && pointToNode[p] == old(pointToNode)[p]
                else p !in pointToNode
    {
      if node.id in nodes {
        return;
      }
      FirstPointsAre(hash, node.id, virtualNodes);
      nodes := nodes[node.id := node];
      PlacePoints(node.id);
      OperationsKeepWellFormed(old(State()), node, "");
      RebuildPoints();
    }

    /** The loop of `AddNode`: points already on the ring are overwritten. */
    method PlacePoints(id: string)
      modifies this`pointToNode
      ensures pointToNode == Claim(old(pointToNode), VirtualPoints(hash, virtualNodes)(id), id)
    {
      ghost var before := pointToNode;
      assert before == Claim(before, FirstPoints(hash, id, 0), id);
      var i := 0;
      while i < virtualNodes
        invariant 0 <= i <= virtualNodes
        invariant pointToNode == Claim(before, FirstPoints(hash, id, i), id)
      {
        var h := hash(NodePointKey(id, i));
        ClaimOne(before, FirstPoints(hash, id, i), id, h);
        NextPoint(hash, id, i);
        pointToNode := pointToNode[h := id];
        i := i + 1;
      }
    }

    method RemoveNode(id: string)
      requires Valid()
      modifies this
      ensures Valid() && State() == old(State()).Removed(id)
      ensures id !in old(nodes) ==> nodes == old(nodes) && pointToNode == old(pointToNode)
      ensures id in old(nodes) ==> nodes == old(nodes) - {id}
      ensures id in old(nodes) ==> forall p ::
                if p in old(pointToNode) && !HashesTo(hash, virtualNodes, id, p)
                then p in pointToNode && pointToNode[p] == old(pointToNode)[p] else p !in pointToNode
    {
      if id !in nodes {
        return;
      }
      FirstPointsAre(hash, id, virtualNodes);
      nodes := nodes - {id};
      DropPoints(id);
      OperationsKeepWellFormed(old(State()), Node("", ""), id);
      RebuildPoints();
    }

    /** The loop of `RemoveNode`: points are deleted whoever owns them. */
    method DropPoints(id: string)
      modifies this`pointToNode
      ensures pointToNode == old(pointToNode) - VirtualPoints(hash, virtualNodes)(id)
    {
      ghost var before := pointToNode;
      assert before == before - FirstPoints(hash, id, 0);
      var i := 0;
      while i < virtualNodes
        invariant 0 <= i <= virtualNodes
        invariant pointToNode == before - FirstPoints(hash, id, i)
      {
        var h := hash(NodePointKey(id, i));
        DropOne(before, FirstPoints(hash, id, i), h);
        NextPoint(hash, id, i);
        pointToNode := pointToNode - {h};
        i := i + 1;
      }
    }

    method RebuildPoints()
      modifies this`points
      ensures points == Walk(pointToNode.Keys, 0)
    {
      var unsorted: seq<Point> := [];
      var left := pointToNode.Keys;
      while left != {}
        invariant left <= pointToNode.Keys
        invariant forall p :: p in unsorted <==> p in pointToNode.Keys - left
        invariant Distinct(unsorted)
        decreases left
      {
        var h :| h in left;
        SnocDistinct(unsorted, h);
        unsorted := unsorted + [h];
        left := left - {h};
      }
      points := SortPoints(unsorted);
      WalkUnique(0, points, Walk(pointToNode.Keys, 0));
    }

    method Lookup(key: string) returns (node: Node, ok: bool)
      requires Valid()
      ensures ok <==> State().Lookup(hash(key)).Some?
      ensures ok ==> State().Lookup(hash(key)).value in nodes && node == nodes[State().Lookup(hash(key)).value]
      ensures !ok ==> node == Node("", "")
      ensures ok <==> pointToNode != map[]
      ensures forall p | NextAround(pointToNode.Keys, hash(key), p) ::
                ok && pointToNode[p] in nodes && node == nodes[pointToNode[p]]
    {
      var h := hash(key);
      if |points| == 0 {
        assert pointToNode.Keys == {};
        LookupNoneIff(State(), h);
        return Node("", ""), false;
      }
      var found := Search(points, h);
      var idx := WrapAround(found, |points|);
      FirstOfWalk(State(), points, h, found);
      var id := pointToNode[points[idx]];
      node, ok := nodes[id], true;
      FoundIsNext(points, pointToNode.Keys, h, found);
    }

    /** The caller must not ask a stranded ring: the slice index would panic (see `JoinAndLeaveStrandsIff`). */
    method Replicas(key: string, factor: int) returns (replicas: seq<Node>)
      requires Valid()
      requires Stranded(State()) ==> factor <= 1
      ensures Named(nodes, State().Replicas(hash(key), factor), replicas)
    {
      replicas := [];
      if |nodes| <= 1 || factor <= 1 {
        return;
      }
      ghost var r := State();
      assert points == [] ==> r.owner.Keys == {};
      var h := hash(key);
      var found := Search(points, h);
      var idx := WrapAround(found, |points|);
      FirstOfWalk(r, points, h, found);
      ghost var met := Owners(r.owner, Walk(r.owner.Keys, h));
      PointsRegistered(r, points);
      ghost var walked, ids;
      replicas, walked, ids := CollectReplicas(nodes, pointToNode, points, idx, factor, met);
      WalkedReplicas(r, h, met, walked, ids, factor);
    }
  }

  /**
    The clockwise walk of `Replicas` from index `idx`, stopping as soon as enough nodes were met.
    `met` lists the owners of all points in walking order.
   */
  method CollectReplicas(nodes: map<string, Node>, owner: map<Point, string>, points: seq<Point>, idx: nat, factor: int,
                         ghost met: seq<string>)
    returns (replicas: seq<Node>, ghost walked: nat, ghost ids: seq<string>)
    requires idx < |points| && factor > 1
    requires forall i :: 0 <= i < |points| ==> points[i] in owner && owner[points[i]] in nodes
    requires |met| == |points|
    requires forall i :: 0 <= i < |points| ==> met[i] == owner[(points[idx..] + points[..idx])[i]]
    ensures 1 <= walked <= |points|
    ensures Firsts(met[..walked]) == [met[0]] + ids && Named(nodes, ids, replicas)
    ensures |replicas| == factor - 1 || (|replicas| < factor - 1 && walked == |points|)
  {
    replicas, ids := [], [];
    var primary := owner[points[idx]];
    var seen := {primary};
    assert met[..1] == [primary];
    var i := 1;
    while i < |points|
      invariant 1 <= i <= |points|
      invariant Firsts(met[..i]) == [primary] + ids
      invariant forall id :: id in seen <==> id in [primary] + ids
      invariant Named(nodes, ids, replicas)
      invariant |replicas| < factor - 1
    {
      var wrapped := (idx + i) % |points|;
      WrappedIndex(points, idx, i);
      var id := owner[points[wrapped]];
      FirstsStep(met, i);
      i := i + 1;
      if id in seen {
        continue;
      }
      seen := seen + {id};
      NamedSnoc(nodes, ids, replicas, id);
      MoreSeen(primary, ids, id);
      replicas, ids := replicas + [nodes[id]], ids + [id];
      if |replicas| >= factor - 1 {
        break;
      }
    }
    walked := i;
  }

  lemma MoreSeen(primary: string, ids: seq<string>, id: string)
    ensures [primary] + (ids + [id]) == [primary] + ids + [id]
    ensures forall x :: x in [primary] + (ids + [id]) <==> x in [primary] + ids || x == id
  {
    assert [primary] + (ids + [id]) == [primary] + ids + [id];
  }

  lemma NamedSnoc(nodes: map<string, Node>, ids: seq<string>, found: seq<Node>, id: string)
    requires Named(nodes, ids, found) && id in nodes
    ensures Named(nodes, ids + [id], found + [nodes[id]])
  {
  }

  lemma FirstsStep(s: seq<string>, i: nat)
    requires i < |s|
    ensures Firsts(s[..i + 1]) == if s[i] in Firsts(s[..i]) then Firsts(s[..i]) else Firsts(s[..i]) + [s[i]]
  {
    assert s[..i + 1] == s[..i] + [s[i]];
    FirstsSnoc(s[..i], s[i]);
  }

  lemma WrappedIndex(points: seq<Point>, idx: nat, i: nat)
    requires idx < |points| && i < |points|
    ensures (idx + i) % |points| < |points|
    ensures (points[idx..] + points[..idx])[i] == points[(idx + i) % |points|]
  {
    WrapOnce(idx + i, |points|);
  }

  lemma WrapOnce(k: nat, n: nat)
    requires k < n + n
    ensures n > 0 && k % n == if k < n then k else k - n
  {
  }

  lemma TakeReplicas(prefs: seq<string>, primary: string, ids: seq<string>, registered: nat, factor: int)
    requires [primary] + ids <= prefs && registered > 1 && factor > 1
    requires |ids| == factor - 1 || (|ids| < factor - 1 && [primary] + ids == prefs)
    ensures ids == ReplicasAmong(prefs, registered, factor)
  {
    assert ids == ([primary] + ids)[1..];
    assert [primary] + ids == prefs[..|ids| + 1];
  }

  /** The index of the first point that is not below `h`, by binary search. */
  method Search(points: seq<Point>, h: Point) returns (idx: nat)
    requires ClockwiseFrom(0, points)
    ensures idx <= |points|
    ensures forall i :: 0 <= i < idx ==> points[i] < h
    ensures forall i :: idx <= i < |points| ==> points[i] >= h
  {
    var lo, hi := 0, |points|;
    while lo < hi
      invariant 0 <= lo <= hi <= |points|
      invariant forall i :: 0 <= i < lo ==> points[i] < h
      invariant forall i :: hi <= i < |points| ==> points[i] >= h
    {
      var mid := (lo + hi) / 2;
      assert forall i :: 0 <= i < mid ==> Clockwise(0, points[i]) < Clockwise(0, points[mid]);
      assert forall i :: mid < i < |points| ==> Clockwise(0, points[mid]) < Clockwise(0, points[i]);
      if points[mid] >= h {
        hi := mid;
      } else {
        lo := mid + 1;
      }
    }
    idx := lo;
  }

  lemma NextIsNearest(points: set<Point>, h: Point, p: Point)
    requires NextAround(points, h, p)
    ensures IsNearest(points, h, p)
  {
  }

  /** Among ascending points the search finds the next one around. */
  lemma FoundIsNext(points: seq<Point>, elems: set<Point>, h: Point, found: nat)
    requires ClockwiseFrom(0, points) && points != [] && found <= |points|
    requires forall p :: p in points <==> p in elems
    requires forall i :: 0 <= i < found ==> points[i] < h
    requires forall i :: found <= i < |points| ==> points[i] >= h
    ensures forall p :: NextAround(elems, h, p) <==> p == points[WrapAround(found, |points|)]
  {
    var best := points[WrapAround(found, |points|)];
    forall q <- elems ensures if best >= h then q < h || best <= q else q < h && best <= q {
      var j :| 0 <= j < |points| && points[j] == q;
      if j > WrapAround(found, |points|) {
        assert Clockwise(0, best) < Clockwise(0, q);
      }
    }
    assert best in points;
  }

  function WrapAround(found: nat, length: nat): nat {
    if found == length then 0 else found
  }

  lemma FirstOfWalk(r: RingState, points: seq<Point>, h: Point, found: nat)
    requires points == Walk(r.owner.Keys, 0) && points != [] && found <= |points|
    requires forall i :: 0 <= i < found ==> points[i] < h
    requires forall i :: found <= i < |points| ==> points[i] >= h
    ensures var idx := WrapAround(found, |points|);
            && points[idx..] + points[..idx] == Walk(r.owner.Keys, h)
            && points[idx] in r.owner
            && r.Lookup(h) == Some(r.owner[points[idx]])
  {
    WrappedRotation(points, r.owner.Keys, h, found);
    HeadOfPrefs(r, h);
  }

  lemma PointsRegistered(r: RingState, points: seq<Point>)
    requires r.WellFormed() && forall p :: p in points <==> p in r.owner.Keys
    ensures forall i :: 0 <= i < |points| ==> points[i] in r.owner && r.owner[points[i]] in r.nodes
  {
    forall i | 0 <= i < |points| ensures points[i] in r.owner {
      assert points[i] in points;
    }
  }

  lemma WrappedRotation(points: seq<Point>, elems: set<Point>, h: Point, found: nat)
    requires ClockwiseFrom(0, points) && points != [] && found <= |points|
    requires forall p :: p in points <==> p in elems
    requires forall i :: 0 <= i < found ==> points[i] < h
    requires forall i :: found <= i < |points| ==> points[i] >= h
    ensures var idx := WrapAround(found, |points|);
            points[idx..] + points[..idx] == Walk(elems, h) && Walk(elems, h)[0] == points[idx]
  {
    RotationIsWalk(points, elems, h, found);
    FullRotation(points);
    HeadOfRotation(points, WrapAround(found, |points|));
  }

  lemma FullRotation(s: seq<Point>)
    ensures s[|s|..] + s[..|s|] == s[0..] + s[..0]
  {
  }

  lemma HeadOfRotation(s: seq<Point>, idx: nat)
    requires idx < |s|
    ensures (s[idx..] + s[..idx])[0] == s[idx]
  {
  }

  lemma HeadOfPrefs(r: RingState, h: Point)
    requires Walk(r.owner.Keys, h) != []
    ensures var w := Walk(r.owner.Keys, h); w[0] in r.owner && r.Lookup(h) == Some(r.owner[w[0]])
  {
    var w := Walk(r.owner.Keys, h);
    assert w[0] in w;
    assert Owners(r.owner, w)[0] == r.owner[w[0]];
  }

  /** A walk that met enough nodes, or all points, has found the replicas. */
  lemma WalkedReplicas(r: RingState, h: Point, met: seq<string>, walked: nat, ids: seq<string>, factor: int)
    requires met == Owners(r.owner, Walk(r.owner.Keys, h)) && 1 <= walked <= |met|
    requires Firsts(met[..walked]) == [met[0]] + ids
    requires |r.nodes| > 1 && factor > 1
    requires |ids| == factor - 1 || (|ids| < factor - 1 && walked == |met|)
    ensures ids == r.Replicas(h, factor)
  {
    TakeFirsts(met, walked);
    TakeReplicas(Firsts(met), met[0], ids, |r.nodes|, factor);
  }

  lemma TakeFirsts(s: seq<string>, i: nat)
    requires i <= |s|
    ensures Firsts(s[..i]) <= Firsts(s) && (i == |s| ==> Firsts(s[..i]) == Firsts(s))
  {
    assert s == s[..i] + s[i..];
    FirstsPrefix(s[..i], s[i..]);
    assert i == |s| ==> s[..i] == s;
  }

  lemma ClaimOne(owner: map<Point, string>, placed: set<Point>, id: string, h: Point)
    ensures Claim(owner, placed, id)[h := id] == Claim(owner, placed + {h}, id)
  {
  }

  lemma DropOne(owner: map<Point, string>, deleted: set<Point>, h: Point)
    ensures owner - deleted - {h} == owner - (deleted + {h})
  {
  }

  /** Insertion sort of distinct points. */
  method SortPoints(unsorted: seq<Point>) returns (sorted: seq<Point>)
    requires Distinct(unsorted)
    ensures ClockwiseFrom(0, sorted)
    ensures forall p :: p in sorted <==> p in unsorted
  {
    sorted := [];
    for i := 0 to |unsorted|
      invariant ClockwiseFrom(0, sorted)
      invariant forall p :: p in sorted <==> p in unsorted[..i]
    {
      var x := unsorted[i];
      var j := 0;
      while j < |sorted| && sorted[j] < x
        invariant 0 <= j <= |sorted|
        invariant forall k :: 0 <= k < j ==> sorted[k] < x
      {
        j := j + 1;
      }
      assert x !in sorted by {
        assert forall k :: 0 <= k < i ==> unsorted[..i][k] == unsorted[k];
      }
      InsertSorted(sorted, j, x);
      assert unsorted[..i + 1] == unsorted[..i] + [x];
      assert sorted == sorted[..j] + sorted[j..];
      sorted := sorted[..j] + [x] + sorted[j..];
    }
    assert unsorted[..|unsorted|] == unsorted;
  }

  lemma InsertSorted(s: seq<Point>, j: nat, x: Point)
    requires ClockwiseFrom(0, s) && x !in s && j <= |s|
    requires forall k :: 0 <= k < j ==> s[k] < x
    requires j < |s| ==> s[j] >= x
    ensures ClockwiseFrom(0, s[..j] + [x] + s[j..])
  {
    var r := s[..j] + [x] + s[j..];
    forall k | j <= k < |s| ensures x < s[k] {
      assert s[j] != x;
      assert k == j || Clockwise(0, s[j]) < Clockwise(0, s[k]);
    }
    forall a, b | 0 <= a < b < |r| ensures Clockwise(0, r[a]) < Clockwise(0, r[b]) {
      var c := if a < j then a else a - 1;
      var d := if b < j then b else b - 1;
      if a != j && b != j {
        assert r[a] == s[c] && r[b] == s[d];
      }
    }
  }
}
