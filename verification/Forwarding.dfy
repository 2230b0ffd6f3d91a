/**
  How far a request is passed on, for any number of replicas. A call by which one node passes a
  request to another runs the whole handler there before it returns, so a request that is passed on
  for ever never ends. The handlers are evaluated with a bound on the depth of such calls; a request
  ends if some bound is enough. Liveness views and unexpired copies are fixed during a request, while
  every single call may be lost, take effect unanswered, or be answered.
 */
module Forwarding {
  import opened Lists
  import opened Topology

  /** `view(a, b)`: node `a` believes `b` alive. `holds(a)`: node `a` has the key unexpired. */
  datatype Env = Env(group: seq<string>, view: (string, string) -> bool, holds: string -> bool)

  /** What happens to the call that leads along a path of nodes to its last one. */
  type Network = seq<string> -> Outcome

  datatype Answer = Found | Missing | Accepted(at: string) | BadGateway | NoNodes

  /** `Diverged`: the bound was not enough. `Failed`: an error, or a reply that got lost. */
  datatype Verdict = Diverged | Failed | Answered(answer: Answer)

  function Select(ids: seq<string>, alive: string -> bool, up: bool): seq<string> {
    if ids == [] then [] else (if alive(ids[0]) == up then [ids[0]] else []) + Select(ids[1..], alive, up)
  }

  lemma {:induction false} SelectSnoc(ids: seq<string>, x: string, alive: string -> bool, up: bool)
    ensures Select(ids + [x], alive, up) == Select(ids, alive, up) + if alive(x) == up then [x] else []
  {
    if ids != [] {
      assert (ids + [x])[1..] == ids[1..] + [x];
      SelectSnoc(ids[1..], x, alive, up);
    }
  }

  lemma {:induction false} SelectPermutes(ids: seq<string>, alive: string -> bool)
    ensures multiset(Select(ids, alive, true) + Select(ids, alive, false)) == multiset(ids)
  {
    if ids != [] {
      SelectPermutes(ids[1..], alive);
      assert ids == [ids[0]] + ids[1..];
    }
  }

  /** Only the views of the listed nodes matter. */
  lemma {:induction false} SelectAlike(ids: seq<string>, alive: string -> bool, alive': string -> bool, up: bool)
    requires forall x <- ids :: alive(x) == alive'(x)
    ensures Select(ids, alive, up) == Select(ids, alive', up)
  {
    if ids != [] {
      SelectAlike(ids[1..], alive, alive', up);
    }
  }

  /** The replicas in the order in which `node` tries them: live ones first, ring order kept. */
  function TryOrder(e: Env, node: string): seq<string>
    requires e.group != []
  {
    var alive := b => e.view(node, b);
    Select(e.group[1..], alive, true) + Select(e.group[1..], alive, false)
  }

  // ---------- Reads ----------

  /** `readFromReplica` at the primary: the direct calls go no further. */
  function FromReplica(e: Env, net: Network, path: seq<string>, order: seq<string>): Answer {
    if order == [] then Missing
    else if order[0] != Last(path) && net(path + [order[0]]).Replied? && e.holds(order[0]) then Found
    else FromReplica(e, net, path, order[1..])
  }

  function Last(path: seq<string>): string {
    if path == [] then "" else path[|path| - 1]
  }

  /** `handleGet` at the last node of `path`. */
  function Get(e: Env, net: Network, path: seq<string>, fuel: nat): Verdict
    decreases fuel, |e.group| + 3
  {
    var node := Last(path);
    if e.group == [] then Answered(NoNodes)
    else if node == e.group[0] then
      Answered(if e.holds(node) then Found else FromReplica(e, net, path, TryOrder(e, node)))
    else
      var first := if e.view(node, e.group[0]) then CallGet(e, net, path, e.group[0], fuel) else Failed;
      if first.Failed? then
        TryOrderLength(e, node);
        TryGet(e, net, path, TryOrder(e, node), fuel)
      else first
  }

  lemma {:induction false} SelectLength(ids: seq<string>, alive: string -> bool)
    ensures |Select(ids, alive, true)| + |Select(ids, alive, false)| == |ids|
  {
    if ids != [] {
      SelectLength(ids[1..], alive);
    }
  }

  lemma TryOrderLength(e: Env, node: string)
    requires e.group != []
    ensures |TryOrder(e, node)| == |e.group| - 1
  {
    SelectLength(e.group[1..], b => e.view(node, b));
  }

  /** The loop over the replicas: this node reads its own copy, another one is passed the request. */
  function TryGet(e: Env, net: Network, path: seq<string>, order: seq<string>, fuel: nat): Verdict
    decreases fuel, |order| + 2
  {
    var node := Last(path);
    if order == [] then Answered(BadGateway)
    else if order[0] == node then (if e.holds(node) then Answered(Found) else TryGet(e, net, path, order[1..], fuel))
    else
      var r := CallGet(e, net, path, order[0], fuel);
      if r.Failed? then TryGet(e, net, path, order[1..], fuel) else r
  }

  function CallGet(e: Env, net: Network, path: seq<string>, to: string, fuel: nat): Verdict
    decreases fuel, 1
  {
    var outcome := net(path + [to]);
    if outcome.Lost? then Failed
    else if fuel == 0 then Diverged
    else
      var r := Get(e, net, path + [to], fuel - 1);
      if r.Diverged? then Diverged else if outcome.Replied? then r else Failed
  }

  // ---------- Writes ----------

  /** `handleSet` or `handleDelete` at the last node of `path`. */
  function Write(e: Env, net: Network, path: seq<string>, fuel: nat): Verdict
    decreases fuel, |e.group| + 3
  {
    var node := Last(path);
    if e.group == [] then Answered(NoNodes)
    else if node == e.group[0] then Answered(Accepted(node))
    else if e.view(node, e.group[0]) then
      var r := CallWrite(e, net, path, e.group[0], fuel);
      if r.Failed? then Answered(BadGateway) else r
    else
      TryOrderLength(e, node);
      TryWrite(e, net, path, TryOrder(e, node), fuel)
  }

  /** The loop over the replicas: this node accepts the write itself when its turn comes. */
  function TryWrite(e: Env, net: Network, path: seq<string>, order: seq<string>, fuel: nat): Verdict
    decreases fuel, |order| + 2
  {
    if order == [] then Answered(BadGateway)
    else if order[0] == Last(path) then Answered(Accepted(Last(path)))
    else
      var r := CallWrite(e, net, path, order[0], fuel);
      if r.Failed? then TryWrite(e, net, path, order[1..], fuel) else r
  }

  function CallWrite(e: Env, net: Network, path: seq<string>, to: string, fuel: nat): Verdict
    decreases fuel, 1
  {
    var outcome := net(path + [to]);
    if outcome.Lost? then Failed
    else if fuel == 0 then Diverged
    else
      var r := Write(e, net, path + [to], fuel - 1);
      if r.Diverged? then Diverged else if outcome.Replied? then r else Failed
  }

  // ---------- What answers say ----------

  /** What an answer to a GET at the last node of `path` says about who holds the key. */
  ghost predicate GetSays(e: Env, net: Network, path: seq<string>, a: Answer) {
    && (a.NoNodes? <==> e.group == []) && !a.Accepted?
    && (a.Found? ==> exists n <- e.group :: e.holds(n))
    && (a.Missing? ==> !e.holds(e.group[0]))
    && (e.group != [] && Last(path) == e.group[0] ==> a == (if AnyAnswers(e, net, path) then Found else Missing))
    && (PrimaryReplies(e, net, path) ==>
          a == if AnyAnswers(e, net, path + [e.group[0]]) then Found else Missing)
  }

  /** The last node of `path` asks the primary, and gets its reply. */
  predicate PrimaryReplies(e: Env, net: Network, path: seq<string>) {
    && e.group != [] && Last(path) != e.group[0] && e.view(Last(path), e.group[0])
    && net(path + [e.group[0]]).Replied?
  }

  /** The primary holds the key, or a replica does whose call from there is answered. */
  ghost predicate AnyAnswers(e: Env, net: Network, path: seq<string>)
    requires e.group != []
  {
    e.holds(e.group[0]) || exists n <- e.group[1..] :: n != Last(path) && net(path + [n]).Replied? && e.holds(n)
  }

  lemma {:induction false} FromReplicaSays(e: Env, net: Network, path: seq<string>, order: seq<string>)
    ensures FromReplica(e, net, path, order)
            == if exists n <- order :: n != Last(path) && net(path + [n]).Replied? && e.holds(n) then Found else Missing
  {
    if order != [] {
      FromReplicaSays(e, net, path, order[1..]);
    }
  }

  /** Whatever the group and the views: an answered GET tells the truth, and the primary answers 200 or 404. */
  lemma {:induction false} AnsweredGetSays(e: Env, net: Network, path: seq<string>, fuel: nat)
    ensures var r := Get(e, net, path, fuel); r.Answered? ==> GetSays(e, net, path, r.answer)
    ensures !Get(e, net, path, fuel).Failed?
    decreases fuel, |e.group| + 3
  {
    if e.group != [] {
      var node := Last(path);
      if node == e.group[0] {
        FromReplicaSays(e, net, path, TryOrder(e, node));
        TryOrderMembers(e, node);
        assert e.group[0] in e.group;
      } else {
        CallSays(e, net, path, e.group[0], fuel);
        TryOrderLength(e, node);
        TryOrderMembers(e, node);
        if !PrimaryReplies(e, net, path) {
          TrySays(e, net, path, TryOrder(e, node), fuel);
        }
      }
    }
  }

  lemma {:induction false} TrySays(e: Env, net: Network, path: seq<string>, order: seq<string>, fuel: nat)
    requires e.group != [] && Last(path) != e.group[0] && forall n <- order :: n in e.group
    requires !PrimaryReplies(e, net, path)
    ensures var r := TryGet(e, net, path, order, fuel); r.Answered? ==> GetSays(e, net, path, r.answer)
    ensures !TryGet(e, net, path, order, fuel).Failed?
    decreases fuel, |order| + 2
  {
    if order != [] {
      if order[0] != Last(path) {
        CallSays(e, net, path, order[0], fuel);
      }
      assert order[0] in e.group;
      TrySays(e, net, path, order[1..], fuel);
    }
  }

  lemma {:induction false} CallSays(e: Env, net: Network, path: seq<string>, to: string, fuel: nat)
    requires e.group != [] && to in e.group
    ensures var r := CallGet(e, net, path, to, fuel);
            && (r.Answered? ==> GetSays(e, net, path + [to], r.answer) && net(path + [to]).Replied?)
            && (net(path + [to]).Replied? ==> !r.Failed?)
    decreases fuel, 1
  {
    if fuel > 0 {
      AnsweredGetSays(e, net, path + [to], fuel - 1);
    }
  }

  /** An accepted write is accepted by a group member, and at the primary by the primary itself. */
  ghost predicate WriteSays(e: Env, net: Network, path: seq<string>, a: Answer) {
    && (a.NoNodes? <==> e.group == []) && !a.Found? && !a.Missing?
    && (a.Accepted? ==> a.at in e.group)
    && (e.group != [] && Last(path) == e.group[0] ==> a == Accepted(e.group[0]))
    && (PrimaryReplies(e, net, path) ==> a == Accepted(e.group[0]))
  }

  lemma {:induction false} AnsweredWriteSays(e: Env, net: Network, path: seq<string>, fuel: nat)
    ensures var r := Write(e, net, path, fuel); r.Answered? ==> WriteSays(e, net, path, r.answer)
    ensures !Write(e, net, path, fuel).Failed?
    decreases fuel, |e.group| + 3
  {
    if e.group != [] && Last(path) != e.group[0] {
      WriteCallSays(e, net, path, e.group[0], fuel);
      TryOrderLength(e, Last(path));
      TryOrderMembers(e, Last(path));
      if !PrimaryReplies(e, net, path) {
        TryWriteSays(e, net, path, TryOrder(e, Last(path)), fuel);
      }
    }
  }

  lemma {:induction false} TryWriteSays(e: Env, net: Network, path: seq<string>, order: seq<string>, fuel: nat)
    requires e.group != [] && Last(path) != e.group[0] && forall n <- order :: n in e.group
    requires !PrimaryReplies(e, net, path)
    ensures var r := TryWrite(e, net, path, order, fuel); r.Answered? ==> WriteSays(e, net, path, r.answer)
    ensures !TryWrite(e, net, path, order, fuel).Failed?
    decreases fuel, |order| + 2
  {
    if order != [] {
      if order[0] != Last(path) {
        WriteCallSays(e, net, path, order[0], fuel);
      }
      assert order[0] in e.group;
      TryWriteSays(e, net, path, order[1..], fuel);
    }
  }

  lemma {:induction false} WriteCallSays(e: Env, net: Network, path: seq<string>, to: string, fuel: nat)
    requires e.group != [] && to in e.group
    ensures var r := CallWrite(e, net, path, to, fuel);
            && (r.Answered? ==> WriteSays(e, net, path + [to], r.answer) && net(path + [to]).Replied?)
            && (net(path + [to]).Replied? ==> !r.Failed?)
    decreases fuel, 1
  {
    if fuel > 0 {
      AnsweredWriteSays(e, net, path + [to], fuel - 1);
    }
  }

  // ---------- When requests end ----------

  ghost predicate GetEnds(e: Env, net: Network, path: seq<string>) {
    exists fuel :: !Get(e, net, path, fuel).Diverged?
  }

  ghost predicate WriteEnds(e: Env, net: Network, path: seq<string>) {
    exists fuel :: !Write(e, net, path, fuel).Diverged?
  }

  /** Each node believes itself alive, as every node's membership does from its start. */
  ghost predicate TrustSelf(e: Env) {
    forall i :: 1 <= i < |e.group| ==> e.view(e.group[i], e.group[i])
  }

  /** Replica `i` comes before `j` in the order in which `j` tries the replicas, if `j` believes itself alive. */
  predicate Before(e: Env, i: nat, j: nat)
    requires i < |e.group| && j < |e.group|
  {
    i < j && e.view(e.group[j], e.group[i])
  }

  /** In the order of replica `j`, replica `i` comes before `j` itself. */
  predicate TriedEarlier(e: Env, i: nat, j: nat)
    requires i < |e.group| && j < |e.group|
  {
    Before(e, i, j) || (!e.view(e.group[j], e.group[j]) && (i < j || e.view(e.group[j], e.group[i])))
  }

  /** Replica `j` may pass a GET on to replica `i`: it misses the key, or tries `i` before its own copy. */
  predicate PassesOn(e: Env, j: nat, i: nat) {
    && 1 <= i < |e.group| && 1 <= j < |e.group| && i != j
    && (!e.holds(e.group[j]) || TriedEarlier(e, i, j))
  }

  /** Each replica of the walk may pass a GET on to the next. */
  ghost predicate Walk(e: Env, w: seq<nat>) {
    && (forall x :: 0 <= x < |w| ==> 1 <= w[x] < |e.group|)
    && forall x :: 0 <= x < |w| - 1 ==> PassesOn(e, w[x], w[x + 1])
  }

  /** Replicas in whose circle a GET may be passed on. */
  ghost predicate Circle(e: Env, w: seq<nat>) {
    Walk(e, w) && |w| >= 2 && w[0] == w[|w| - 1]
  }

  ghost predicate Circles(e: Env) {
    exists w :: Circle(e, w)
  }

  /**
    Two replicas pass a GET back and forth: the first misses the key, and so does the second or it
    tries the first before its own copy.
   */
  ghost predicate PingPong(e: Env) {
    exists i: nat, j: nat :: Plays(e, i, j)
  }

  predicate Plays(e: Env, i: nat, j: nat) {
    && 1 <= i < |e.group| && 1 <= j < |e.group| && i != j
    && !e.holds(e.group[i]) && (!e.holds(e.group[j]) || Before(e, i, j))
  }

  // ---------- The order of attempts ----------

  lemma {:induction false} SelectMembers(ids: seq<string>, alive: string -> bool, up: bool)
    ensures forall x :: x in Select(ids, alive, up) <==> x in ids && alive(x) == up
  {
    if ids != [] {
      SelectMembers(ids[1..], alive, up);
    }
  }

  /** `x` occurs in `order` and not after `y`. */
  ghost predicate NotAfter(order: seq<string>, x: string, y: string) {
    exists k :: 0 <= k < |order| && order[k] == x && Avoids(order, k, y)
  }

  predicate Avoids(order: seq<string>, k: nat, y: string) {
    forall n :: 0 <= n < k && n < |order| ==> order[n] != y
  }

  lemma {:induction false} SelectNotAfter(ids: seq<string>, alive: string -> bool, up: bool, x: string, y: string)
    requires NotAfter(ids, x, y) && alive(x) == up
    ensures NotAfter(Select(ids, alive, up), x, y)
  {
    var k :| 0 <= k < |ids| && ids[k] == x && Avoids(ids, k, y);
    var rest := Select(ids[1..], alive, up);
    if k == 0 {
      assert Select(ids, alive, up)[0] == x && Avoids(Select(ids, alive, up), 0, y);
    } else {
      assert ids[0] != y && ids[1..][k - 1] == x && Avoids(ids[1..], k - 1, y);
      SelectNotAfter(ids[1..], alive, up, x, y);
      var m :| 0 <= m < |rest| && rest[m] == x && Avoids(rest, m, y);
      if alive(ids[0]) == up {
        assert Select(ids, alive, up) == [ids[0]] + rest;
        assert ([ids[0]] + rest)[m + 1] == x && Avoids([ids[0]] + rest, m + 1, y);
      } else {
        assert Select(ids, alive, up) == rest;
      }
    }
  }

  /** Where a node stands in the group; outsiders come last. */
  function Index(group: seq<string>, node: string): (i: nat)
    ensures i <= |group| && (i < |group| ==> group[i] == node) && (i == |group| <==> node !in group)
  {
    if group == [] then 0 else if group[0] == node then 0 else Index(group[1..], node) + 1
  }

  lemma IndexAt(group: seq<string>, i: nat)
    requires Distinct(group) && i < |group|
    ensures Index(group, group[i]) == i
  {
    var j := Index(group, group[i]);
    assert group[i] in group && group[j] == group[i];
  }

  /** Up to its own turn only live nodes are met. */
  lemma MetIsLive(up: seq<string>, down: seq<string>, node: string, k: nat)
    requires node in up && k < |up + down| && Avoids(up + down, k + 1, node)
    ensures k < |up| && (up + down)[k] == up[k] && Avoids(up, k + 1, node)
  {
    var n :| 0 <= n < |up| && up[n] == node;
    assert (up + down)[n] == node;
    assert n > k;
    forall m | 0 <= m <= k ensures up[m] != node {
      assert (up + down)[m] == up[m];
    }
  }

  /** Nodes of the same kind are met in ring order. */
  lemma MetInOrder(ids: seq<string>, alive: string -> bool, up: bool, a: nat, k: nat) returns (i: nat)
    requires Distinct(ids) && a < |ids| && alive(ids[a]) == up
    requires k < |Select(ids, alive, up)| && Avoids(Select(ids, alive, up), k + 1, ids[a])
    ensures i < a && ids[i] == Select(ids, alive, up)[k] && alive(ids[i]) == up
  {
    var kept := Select(ids, alive, up);
    SelectMembers(ids, alive, up);
    assert kept[k] in kept;
    i :| 0 <= i < |ids| && ids[i] == kept[k];
    if a < i {
      OrderKept(ids, a, i);
      SelectNotAfter(ids, alive, up, ids[a], ids[i]);
    }
  }

  /** What a node that believes itself alive tries before itself: live nodes that precede it on the ring. */
  lemma TriedBeforeSelf(e: Env, j: nat, k: nat)
    requires Distinct(e.group) && 1 <= j < |e.group| && e.view(e.group[j], e.group[j])
    requires k < |TryOrder(e, e.group[j])| && Avoids(TryOrder(e, e.group[j]), k + 1, e.group[j])
    ensures exists i :: 1 <= i < j && e.group[i] == TryOrder(e, e.group[j])[k] && Before(e, i, j)
  {
    var node := e.group[j];
    var alive := b => e.view(node, b);
    var ids := e.group[1..];
    SelectMembers(ids, alive, true);
    assert ids[j - 1] == node;
    MetIsLive(Select(ids, alive, true), Select(ids, alive, false), node, k);
    var i := MetInOrder(ids, alive, true, j - 1, k);
    assert e.group[i + 1] == ids[i] && Before(e, i + 1, j);
  }

  lemma OrderKept(ids: seq<string>, a: nat, b: nat)
    requires a < b < |ids| && Distinct(ids)
    ensures NotAfter(ids, ids[a], ids[b])
  {
    assert Avoids(ids, a, ids[b]);
  }

  lemma TryOrderMembers(e: Env, node: string)
    requires e.group != []
    ensures forall x :: x in TryOrder(e, node) <==> x in e.group[1..]
  {
    SelectMembers(e.group[1..], b => e.view(node, b), true);
    SelectMembers(e.group[1..], b => e.view(node, b), false);
  }

  /** A node that believes itself dead tries first what it sees alive, or what precedes it. */
  lemma TriedBeforeDead(e: Env, j: nat, k: nat)
    requires Distinct(e.group) && 1 <= j < |e.group| && !e.view(e.group[j], e.group[j])
    requires k < |TryOrder(e, e.group[j])| && Avoids(TryOrder(e, e.group[j]), k + 1, e.group[j])
    ensures exists i ::
              1 <= i < |e.group| && i != j && e.group[i] == TryOrder(e, e.group[j])[k] && TriedEarlier(e, i, j)
  {
    var node, ids := e.group[j], e.group[1..];
    var alive := b => e.view(node, b);
    var up, down := Select(ids, alive, true), Select(ids, alive, false);
    SelectMembers(ids, alive, true);
    assert ids[j - 1] == node;
    if k < |up| {
      assert (up + down)[k] == up[k] && up[k] in up;
      var i :| 0 <= i < |ids| && ids[i] == up[k];
      assert e.group[i + 1] == up[k] && TriedEarlier(e, i + 1, j);
    } else {
      assert (up + down)[k] == down[k - |up|];
      AvoidsSuffix(up, down, k, node);
      var i := MetInOrder(ids, alive, false, j - 1, k - |up|);
      assert e.group[i + 1] == ids[i] && TriedEarlier(e, i + 1, j);
    }
  }

  lemma AvoidsSuffix(s: seq<string>, t: seq<string>, k: nat, y: string)
    requires |s| <= k && Avoids(s + t, k + 1, y)
    ensures Avoids(t, k - |s| + 1, y)
  {
    forall n | 0 <= n < k - |s| + 1 && n < |t| ensures t[n] != y {
      assert (s + t)[|s| + n] == t[n];
    }
  }

  /** Nodes of one kind keep their places ahead of the later ones of that kind. */
  lemma TriedInOrder(ids: seq<string>, alive: string -> bool, up: bool, a: nat, b: nat)
    requires a < b < |ids| && Distinct(ids) && alive(ids[a]) == up
    ensures NotAfter(Select(ids, alive, up), ids[a], ids[b])
  {
    OrderKept(ids, a, b);
    SelectNotAfter(ids, alive, up, ids[a], ids[b]);
  }

  lemma NotAfterFront(s: seq<string>, t: seq<string>, x: string, y: string)
    requires NotAfter(s, x, y)
    ensures NotAfter(s + t, x, y)
  {
    var k :| 0 <= k < |s| && s[k] == x && Avoids(s, k, y);
    assert (s + t)[k] == x && Avoids(s + t, k, y);
  }

  lemma NotAfterBack(s: seq<string>, t: seq<string>, x: string, y: string)
    requires NotAfter(t, x, y) && y !in s
    ensures NotAfter(s + t, x, y)
  {
    var k :| 0 <= k < |t| && t[k] == x && Avoids(t, k, y);
    assert (s + t)[|s| + k] == x;
    forall n | 0 <= n < |s| + k ensures (s + t)[n] != y {
      if n < |s| {
        assert (s + t)[n] == s[n] && s[n] in s;
      } else {
        assert (s + t)[n] == t[n - |s|];
      }
    }
  }

  lemma TriedFirst(e: Env, i: nat, j: nat)
    requires Distinct(e.group) && 1 <= i < |e.group| && 1 <= j < |e.group| && i != j && TriedEarlier(e, i, j)
    ensures NotAfter(TryOrder(e, e.group[j]), e.group[i], e.group[j])
  {
    var x, node, ids := e.group[i], e.group[j], e.group[1..];
    var alive := b => e.view(node, b);
    var up, down := Select(ids, alive, true), Select(ids, alive, false);
    SelectMembers(ids, alive, true);
    assert ids[i - 1] == x && ids[j - 1] == node;
    if alive(node) {
      TriedInOrder(ids, alive, true, i - 1, j - 1);
      NotAfterFront(up, down, x, node);
    } else if alive(x) {
      assert x in up && node !in up;
      var m :| 0 <= m < |up| && up[m] == x;
      assert NotAfter(up, x, node);
      NotAfterFront(up, down, x, node);
    } else {
      TriedInOrder(ids, alive, false, i - 1, j - 1);
      NotAfterBack(up, down, x, node);
    }
  }

  // ---------- Reads end ----------

  /** Whatever the node may still ask it may pass the request on to. */
  ghost predicate Safe(e: Env, j: nat, order: seq<string>)
    requires j <= |e.group|
  {
    forall k :: 0 <= k < |order| && Asked(e, j, order, k) ==> Onward(e, j, order[k])
  }

  /**
    Node `j`, or an outsider, gets as far as asking the node at `k`: it is not itself, and its own copy comes
    later.
   */
  predicate Asked(e: Env, j: nat, order: seq<string>, k: nat)
    requires k < |order| && j <= |e.group|
  {
    j < |e.group| ==> order[k] != e.group[j] && (e.holds(e.group[j]) ==> Avoids(order, k, e.group[j]))
  }

  ghost predicate Onward(e: Env, j: nat, to: string) {
    exists i :: 1 <= i < |e.group| && e.group[i] == to && (j < |e.group| ==> PassesOn(e, j, i))
  }

  lemma TryOrderSafe(e: Env, node: string, j: nat)
    requires Distinct(e.group) && e.group != [] && node != e.group[0] && j == Index(e.group, node)
    ensures Safe(e, j, TryOrder(e, node))
  {
    var order := TryOrder(e, node);
    TryOrderMembers(e, node);
    forall k | 0 <= k < |order| && Asked(e, j, order, k) ensures Onward(e, j, order[k]) {
      AskedOnward(e, node, j, k);
    }
  }

  lemma AskedOnward(e: Env, node: string, j: nat, k: nat)
    requires Distinct(e.group) && e.group != [] && node != e.group[0] && j == Index(e.group, node)
    requires k < |TryOrder(e, node)| && Asked(e, j, TryOrder(e, node), k)
    ensures Onward(e, j, TryOrder(e, node)[k])
  {
    var order := TryOrder(e, node);
    if j < |e.group| && e.holds(node) {
      assert Avoids(order, k + 1, node);
      if e.view(node, node) {
        TriedBeforeSelf(e, j, k);
      } else {
        TriedBeforeDead(e, j, k);
      }
      var i :| 1 <= i < |e.group| && i != j && e.group[i] == order[k] && TriedEarlier(e, i, j);
      assert PassesOn(e, j, i);
    } else {
      TryOrderMembers(e, node);
      assert order[k] in order;
      var i :| 0 <= i < |e.group[1..]| && e.group[1..][i] == order[k];
      assert j < |e.group| ==> PassesOn(e, j, i + 1);
    }
  }

  /** The replicas a request has been passed on through end at the node that has it now. */
  ghost predicate Trails(e: Env, w: seq<nat>, node: string) {
    && e.group != [] && Walk(e, w) && (forall x, y :: 0 <= x < y < |w| ==> w[x] != w[y])
    && Index(e.group, node) == (if w == [] then |e.group| else w[|w| - 1])
  }

  lemma WalkGrows(e: Env, w: seq<nat>, i: nat)
    requires Walk(e, w) && 1 <= i < |e.group| && (w != [] ==> PassesOn(e, w[|w| - 1], i))
    ensures Walk(e, w + [i])
  {
    var v := w + [i];
    forall x | 0 <= x < |v| - 1 ensures PassesOn(e, v[x], v[x + 1]) {
      assert v[x] == w[x] && (x < |w| - 1 ==> v[x + 1] == w[x + 1]);
    }
  }

  lemma WalkEnds(e: Env, w: seq<nat>, x: nat)
    requires Walk(e, w) && x <= |w|
    ensures Walk(e, w[x..])
  {
    var v := w[x..];
    forall y | 0 <= y < |v| - 1 ensures PassesOn(e, v[y], v[y + 1]) {
      assert v[y] == w[x + y] && v[y + 1] == w[x + y + 1];
    }
  }

  /** Without circles no replica comes up twice. */
  lemma NewOnTrail(e: Env, w: seq<nat>, i: nat)
    requires !Circles(e) && Walk(e, w + [i])
    ensures forall x :: 0 <= x < |w| ==> w[x] != i
  {
    if x :| 0 <= x < |w| && w[x] == i {
      WalkEnds(e, w + [i], x);
      assert Circle(e, (w + [i])[x..]);
    }
  }

  lemma TrailGrows(e: Env, w: seq<nat>, node: string, i: nat)
    requires Distinct(e.group) && !Circles(e) && Trails(e, w, node) && 1 <= i < |e.group|
    requires w != [] ==> PassesOn(e, w[|w| - 1], i)
    ensures Trails(e, w + [i], e.group[i])
  {
    IndexAt(e.group, i);
    WalkGrows(e, w, i);
    NewOnTrail(e, w, i);
  }

  lemma TrailIsShort(e: Env, w: seq<nat>, node: string)
    requires Trails(e, w, node)
    ensures |w| < |e.group|
  {
    BoundedLength(w, |e.group|);
  }

  /** Distinct numbers between 1 and `n`, exclusive. */
  lemma {:induction false} BoundedLength(w: seq<nat>, n: nat)
    requires n >= 1 && (forall x :: 0 <= x < |w| ==> 1 <= w[x] < n) && forall x, y :: 0 <= x < y < |w| ==> w[x] != w[y]
    ensures |w| < n
    decreases n
  {
    if w != [] {
      assert 1 <= w[0] < n;
      if x :| 0 <= x < |w| && w[x] == n - 1 {
        BoundedLength(w[..x] + w[x + 1..], n - 1);
      } else {
        BoundedLength(w, n - 1);
      }
    }
  }

  lemma {:induction false} GetDone(e: Env, net: Network, path: seq<string>, w: seq<nat>, fuel: nat)
    requires Distinct(e.group) && !Circles(e) && Trails(e, w, Last(path)) && fuel + |w| >= |e.group|
    ensures !Get(e, net, path, fuel).Diverged?
    decreases fuel, |e.group| + 3
  {
    var node := Last(path);
    TrailIsShort(e, w, node);
    assert node != e.group[0] by {
      IndexAt(e.group, 0);
    }
    assert !Get(e, net, path + [e.group[0]], fuel - 1).Diverged? by {
      assert Last(path + [e.group[0]]) == e.group[0];
    }
    TryOrderSafe(e, node, Index(e.group, node));
    TryOrderLength(e, node);
    TryGetDone(e, net, path, w, TryOrder(e, node), fuel);
  }

  lemma {:induction false} TryGetDone(e: Env, net: Network, path: seq<string>, w: seq<nat>, order: seq<string>,
                                      fuel: nat)
    requires Distinct(e.group) && !Circles(e) && Trails(e, w, Last(path)) && fuel + |w| >= |e.group| && fuel > 0
    requires Safe(e, Index(e.group, Last(path)), order)
    ensures !TryGet(e, net, path, order, fuel).Diverged?
    decreases fuel, |order| + 2
  {
    var node := Last(path);
    if order != [] {
      if order[0] != node {
        var i := FirstOnward(e, w, node, order);
        assert Last(path + [order[0]]) == order[0];
        GetDone(e, net, path + [order[0]], w + [i], fuel - 1);
      }
      if order[0] != node || !e.holds(node) {
        SafeTail(e, Index(e.group, node), order);
        TryGetDone(e, net, path, w, order[1..], fuel);
      }
    }
  }

  /** Whoever is asked first extends the trail. */
  lemma FirstOnward(e: Env, w: seq<nat>, node: string, order: seq<string>) returns (i: nat)
    requires Distinct(e.group) && !Circles(e) && Trails(e, w, node) && order != [] && order[0] != node
    requires Safe(e, Index(e.group, node), order)
    ensures Trails(e, w + [i], order[0])
  {
    var j := Index(e.group, node);
    assert Asked(e, j, order, 0) && Onward(e, j, order[0]);
    i :| 1 <= i < |e.group| && e.group[i] == order[0] && (j < |e.group| ==> PassesOn(e, j, i));
    TrailGrows(e, w, node, i);
  }

  lemma AvoidsTail(order: seq<string>, k: nat, node: string)
    requires order != []
    ensures order[0] != node && Avoids(order[1..], k, node) <==> Avoids(order, k + 1, node)
  {
    assert forall n :: 0 <= n < |order| - 1 ==> order[1..][n] == order[n + 1];
    if Avoids(order, k + 1, node) {
      forall n | 0 <= n < k && n < |order[1..]| ensures order[1..][n] != node {
        assert order[n + 1] != node;
      }
    }
  }

  lemma SafeTail(e: Env, j: nat, order: seq<string>)
    requires j <= |e.group| && order != [] && Safe(e, j, order)
    requires j < |e.group| ==> order[0] != e.group[j] || !e.holds(e.group[j])
    ensures Safe(e, j, order[1..])
  {
    forall k | 0 <= k < |order[1..]| && Asked(e, j, order[1..], k) ensures Onward(e, j, order[1..][k]) {
      assert order[k + 1] == order[1..][k];
      if j < |e.group| {
        AvoidsTail(order, k, e.group[j]);
      }
      assert Asked(e, j, order, k + 1);
    }
  }

  // ---------- Reads that never end ----------

  /** Every call takes effect, and no reply arrives. */
  function Deaf(): Network {
    (path: seq<string>) => Unanswered
  }

  /** Some later attempt diverges, and this node's own copy does not stop the loop before. */
  lemma {:induction false} TryGetDiverges(e: Env, path: seq<string>, order: seq<string>, fuel: nat, k: nat)
    requires k < |order| && order[k] != Last(path) && (e.holds(Last(path)) ==> Avoids(order, k, Last(path)))
    requires CallGet(e, Deaf(), path, order[k], fuel).Diverged?
    ensures TryGet(e, Deaf(), path, order, fuel).Diverged?
    decreases |order|
  {
    if k > 0 {
      assert order[1..][k - 1] == order[k];
      AvoidsTail(order, k - 1, Last(path));
      TryGetDiverges(e, path, order[1..], fuel, k - 1);
    }
  }

  /** Some replica of the circle has the request. */
  lemma {:induction false} CircleDiverges(e: Env, w: seq<nat>, x: nat, path: seq<string>, fuel: nat)
    requires Distinct(e.group) && Circle(e, w) && x < |w| - 1 && Last(path) == e.group[w[x]]
    ensures Get(e, Deaf(), path, fuel).Diverged?
    decreases fuel
  {
    var node, other := Last(path), e.group[w[x + 1]];
    var k := AsksOnward(e, w[x], w[x + 1]);
    if fuel > 0 {
      assert Last(path + [other]) == other;
      CircleDiverges(e, w, if x + 1 == |w| - 1 then 0 else x + 1, path + [other], fuel - 1);
    }
    TryGetDiverges(e, path, TryOrder(e, node), fuel, k);
  }

  /** What may be passed on is passed on, if nothing comes of the attempts before. */
  lemma AsksOnward(e: Env, j: nat, i: nat) returns (k: nat)
    requires Distinct(e.group) && PassesOn(e, j, i)
    ensures var order := TryOrder(e, e.group[j]);
            && k < |order| && order[k] == e.group[i] != e.group[j]
            && (e.holds(e.group[j]) ==> Avoids(order, k, e.group[j]))
  {
    var order := TryOrder(e, e.group[j]);
    if e.holds(e.group[j]) {
      TriedFirst(e, i, j);
      k :| 0 <= k < |order| && order[k] == e.group[i] && Avoids(order, k, e.group[j]);
    } else {
      TryOrderMembers(e, e.group[j]);
      assert e.group[1..][i - 1] == e.group[i];
      assert e.group[i] in order;
      k :| 0 <= k < |order| && order[k] == e.group[i];
    }
  }

  /** The trail of a request that has just come in. */
  lemma EntryTrails(e: Env, node: string)
    requires e.group != [] && node != e.group[0]
    ensures var j := Index(e.group, node); Trails(e, if j == |e.group| then [] else [j], node)
  {
  }

  /**
    GETs end, wherever they enter and whatever happens to the calls, exactly if there is no circle of
    replicas each of which may pass them on to the next. Views are arbitrary.
   */
  lemma ReadsEndIff(e: Env)
    requires Distinct(e.group)
    ensures (forall net, path :: GetEnds(e, net, path)) <==> !Circles(e)
  {
    if w :| Circle(e, w) {
      forall fuel ensures Get(e, Deaf(), [e.group[w[0]]], fuel).Diverged? {
        CircleDiverges(e, w, 0, [e.group[w[0]]], fuel);
      }
      assert !GetEnds(e, Deaf(), [e.group[w[0]]]);
    } else {
      forall net, path ensures GetEnds(e, net, path) {
        if e.group != [] && Last(path) != e.group[0] {
          EntryTrails(e, Last(path));
          var j := Index(e.group, Last(path));
          GetDone(e, net, path, if j == |e.group| then [] else [j], |e.group|);
        }
        assert !Get(e, net, path, |e.group|).Diverged?;
      }
    }
  }

  /** If all replicas hold the key and trust themselves, requests go down the ring. */
  lemma {:induction false} WalkDescends(e: Env, w: seq<nat>)
    requires TrustSelf(e) && Walk(e, w) && |w| >= 2 && forall x :: 0 <= x < |w| ==> e.holds(e.group[w[x]])
    ensures w[0] > w[|w| - 1]
    decreases |w|
  {
    assert PassesOn(e, w[0], w[1]);
    if |w| > 2 {
      WalkDescends(e, w[1..]);
    }
  }

  /** As long as nodes believe themselves alive, two replicas are enough for a circle. */
  lemma CirclesIffPingPong(e: Env)
    requires TrustSelf(e)
    ensures Circles(e) <==> PingPong(e)
  {
    if i: nat, j: nat :| Plays(e, i, j) {
      assert PassesOn(e, i, j) && PassesOn(e, j, i);
      assert Circle(e, [i, j, i]);
    }
    if w :| Circle(e, w) {
      if forall x :: 0 <= x < |w| ==> e.holds(e.group[w[x]]) {
        WalkDescends(e, w);
      } else {
        var x :| 0 <= x < |w| && !e.holds(e.group[w[x]]);
        var y := if x > 0 then x - 1 else |w| - 2;
        assert PassesOn(e, w[y], w[y + 1]) && w[y + 1] == w[x];
        assert Plays(e, w[x], w[y]);
      }
    }
  }

  /** With a single replica no GET goes round. */
  lemma OneReplicaNoCircles(e: Env)
    requires |e.group| <= 2
    ensures !Circles(e)
  {
    assert forall w :: Circle(e, w) ==> PassesOn(e, w[0], w[1]);
  }

  /** The primary is known dead, both replicas believe each other alive, and neither has the key. */
  function LostKey(): Env {
    Env(["p", "a", "b"], (x, y) => y != "p", x => false)
  }

  function AllAnswered(): Network {
    (path: seq<string>) => Replied
  }

  lemma LostKeyOrder(node: string)
    requires node == "a" || node == "b"
    ensures TryOrder(LostKey(), node) == ["a", "b"]
  {
    assert LostKey().group[1..] == ["a", "b"] && ["a", "b"][1..] == ["b"] && ["b"][1..] == [];
  }

  /** The node passes the request on, and waits for its peer. */
  lemma LostKeyWaits(path: seq<string>, node: string, other: string, fuel: nat)
    requires Last(path) == node && {node, other} == {"a", "b"}
    requires CallGet(LostKey(), AllAnswered(), path, other, fuel).Diverged?
    ensures Get(LostKey(), AllAnswered(), path, fuel).Diverged?
  {
    LostKeyOrder(node);
    assert ["a", "b"][1..] == ["b"];
    assert TryGet(LostKey(), AllAnswered(), path, ["a", "b"], fuel).Diverged?;
  }

  lemma {:induction false} LostKeyDiverges(path: seq<string>, fuel: nat)
    requires Last(path) == "a" || Last(path) == "b"
    ensures Get(LostKey(), AllAnswered(), path, fuel).Diverged?
    decreases fuel
  {
    var other := if Last(path) == "a" then "b" else "a";
    if fuel > 0 {
      assert Last(path + [other]) == other;
      LostKeyDiverges(path + [other], fuel - 1);
    }
    LostKeyWaits(path, Last(path), other, fuel);
  }

  /** A GET for such a key never ends, at whichever replica it enters, although every call is answered. */
  lemma LoopingGet()
    ensures !GetEnds(LostKey(), AllAnswered(), ["a"]) && !GetEnds(LostKey(), AllAnswered(), ["b"])
  {
    forall fuel ensures Get(LostKey(), AllAnswered(), ["a"], fuel).Diverged? {
      LostKeyDiverges(["a"], fuel);
    }
    forall fuel ensures Get(LostKey(), AllAnswered(), ["b"], fuel).Diverged? {
      LostKeyDiverges(["b"], fuel);
    }
  }

  // ---------- Writes end ----------

  /** Primary, then replicas by ring order, then outsiders; the last replica counts as the highest. */
  function WriteRank(e: Env, node: string): nat {
    var i := Index(e.group, node);
    if i == |e.group| then i + 1 else if i + 1 == |e.group| && i > 0 then |e.group| else i
  }

  /** Every replica but the last believes itself alive. */
  ghost predicate EarlierTrustSelf(e: Env) {
    forall i :: 1 <= i < |e.group| - 1 ==> e.view(e.group[i], e.group[i])
  }

  ghost predicate WriteSafe(e: Env, node: string, order: seq<string>) {
    forall k :: 0 <= k < |order| && Avoids(order, k + 1, node) ==> WriteRank(e, order[k]) < WriteRank(e, node)
  }

  lemma TryOrderWriteSafe(e: Env, node: string)
    requires e.group != [] && Distinct(e.group) && EarlierTrustSelf(e) && node != e.group[0]
    ensures WriteSafe(e, node, TryOrder(e, node))
  {
    var order := TryOrder(e, node);
    var j := Index(e.group, node);
    TryOrderMembers(e, node);
    forall k | 0 <= k < |order| && Avoids(order, k + 1, node) ensures WriteRank(e, order[k]) < WriteRank(e, node) {
      assert order[k] in e.group[1..];
      var i :| 0 <= i < |e.group[1..]| && e.group[1..][i] == order[k];
      IndexAt(e.group, i + 1);
      if j + 1 < |e.group| {
        TriedBeforeSelf(e, j, k);
        var x :| 1 <= x < j && e.group[x] == order[k] && Before(e, x, j);
        assert x == i + 1;
      }
    }
  }

  lemma {:induction false} WriteDone(e: Env, net: Network, path: seq<string>, fuel: nat)
    requires Distinct(e.group) && EarlierTrustSelf(e) && fuel >= WriteRank(e, Last(path))
    ensures !Write(e, net, path, fuel).Diverged?
    decreases fuel, |e.group| + 3
  {
    var node := Last(path);
    if e.group != [] && node != e.group[0] {
      if e.view(node, e.group[0]) {
        CallWriteDone(e, net, path, e.group[0], fuel);
      } else {
        TryOrderWriteSafe(e, node);
        TryOrderLength(e, node);
        TryWriteDone(e, net, path, TryOrder(e, node), fuel);
      }
    }
  }

  lemma {:induction false} CallWriteDone(e: Env, net: Network, path: seq<string>, to: string, fuel: nat)
    requires Distinct(e.group) && EarlierTrustSelf(e)
    requires fuel >= WriteRank(e, Last(path)) > WriteRank(e, to)
    ensures !CallWrite(e, net, path, to, fuel).Diverged?
    decreases fuel, 1
  {
    assert Last(path + [to]) == to;
    WriteDone(e, net, path + [to], fuel - 1);
  }

  lemma {:induction false} TryWriteDone(e: Env, net: Network, path: seq<string>, order: seq<string>, fuel: nat)
    requires Distinct(e.group) && EarlierTrustSelf(e) && fuel >= WriteRank(e, Last(path))
    requires WriteSafe(e, Last(path), order)
    ensures !TryWrite(e, net, path, order, fuel).Diverged?
    decreases fuel, |order| + 2
  {
    var node := Last(path);
    if order != [] && order[0] != node {
      assert Avoids(order, 1, node);
      CallWriteDone(e, net, path, order[0], fuel);
      forall k | 0 <= k < |order[1..]| && Avoids(order[1..], k + 1, node)
        ensures WriteRank(e, order[1..][k]) < WriteRank(e, node)
      {
        AvoidsTail(order, k + 1, node);
        assert order[k + 1] == order[1..][k];
      }
      TryWriteDone(e, net, path, order[1..], fuel);
    }
  }

  // ---------- Writes that never end ----------

  lemma {:induction false} TryWriteDiverges(e: Env, path: seq<string>, order: seq<string>, fuel: nat, k: nat)
    requires k < |order| && order[k] != Last(path) && Avoids(order, k, Last(path))
    requires CallWrite(e, Deaf(), path, order[k], fuel).Diverged?
    ensures TryWrite(e, Deaf(), path, order, fuel).Diverged?
    decreases |order|
  {
    if k > 0 {
      assert order[1..][k - 1] == order[k];
      AvoidsTail(order, k - 1, Last(path));
      TryWriteDiverges(e, path, order[1..], fuel, k - 1);
    }
  }

  /** Two replicas that both know the primary dead and each try the other before accepting the write. */
  ghost predicate WritePingPong(e: Env, i: nat, j: nat) {
    && 1 <= i < |e.group| && 1 <= j < |e.group| && i != j
    && !e.view(e.group[i], e.group[0]) && !e.view(e.group[j], e.group[0])
    && NotAfter(TryOrder(e, e.group[j]), e.group[i], e.group[j])
       && NotAfter(TryOrder(e, e.group[i]), e.group[j], e.group[i])
  }

  lemma {:induction false} WritePingPongDiverges(e: Env, i: nat, j: nat, path: seq<string>, fuel: nat)
    requires Distinct(e.group) && WritePingPong(e, i, j) && (Last(path) == e.group[i] || Last(path) == e.group[j])
    ensures Write(e, Deaf(), path, fuel).Diverged?
    decreases fuel
  {
    var node := Last(path);
    var other := if node == e.group[i] then e.group[j] else e.group[i];
    var k :| 0 <= k < |TryOrder(e, node)| && TryOrder(e, node)[k] == other && Avoids(TryOrder(e, node), k, node);
    if fuel > 0 {
      assert Last(path + [other]) == other;
      WritePingPongDiverges(e, i, j, path + [other], fuel - 1);
    }
    TryWriteDiverges(e, path, TryOrder(e, node), fuel, k);
  }

  /** Everybody is believed alive but the primary and, by themselves, the nodes outside `trusting`. */
  function Doubts(group: seq<string>, trusting: set<string>, holds: string -> bool): Env
    requires group != []
  {
    Env(group, (a, b) => if a == b then a in trusting else b != group[0], holds)
  }

  lemma DoubterPlays(group: seq<string>, trusting: set<string>, holds: string -> bool, i: nat)
    requires Distinct(group) && 1 <= i < |group| - 1 && group[i] !in trusting
    ensures WritePingPong(Doubts(group, trusting, holds), i, |group| - 1)
  {
    var e, j := Doubts(group, trusting, holds), |group| - 1;
    TriedFirst(e, i, j);
    TriedFirst(e, j, i);
  }

  ghost predicate SelfViews(e: Env, group: seq<string>, trusting: set<string>) {
    e.group == group && forall i :: 1 <= i < |group| ==> (e.view(group[i], group[i]) <==> group[i] in trusting)
  }

  /**
    Writes end under all views that nodes may have of each other, wherever they enter and whatever
    happens to the calls, exactly if every replica but the last believes itself alive.
   */
  lemma WritesEndIff(group: seq<string>, trusting: set<string>)
    requires Distinct(group)
    ensures (forall e, net, path :: SelfViews(e, group, trusting) ==> WriteEnds(e, net, path))
            <==> forall i :: 1 <= i < |group| - 1 ==> group[i] in trusting
  {
    if i :| 1 <= i < |group| - 1 && group[i] !in trusting {
      var e := Doubts(group, trusting, x => false);
      DoubterPlays(group, trusting, x => false, i);
      forall fuel ensures Write(e, Deaf(), [group[i]], fuel).Diverged? {
        WritePingPongDiverges(e, i, |group| - 1, [group[i]], fuel);
      }
      assert SelfViews(e, group, trusting) && !WriteEnds(e, Deaf(), [group[i]]);
    } else {
      forall e, net, path | SelfViews(e, group, trusting) ensures WriteEnds(e, net, path) {
        WriteDone(e, net, path, WriteRank(e, Last(path)));
        assert !Write(e, net, path, WriteRank(e, Last(path))).Diverged?;
      }
    }
  }

  /** As long as nodes believe themselves alive, every SET and DELETE ends, for any number of replicas. */
  lemma WritesEnd(e: Env, net: Network, path: seq<string>)
    requires Distinct(e.group) && TrustSelf(e)
    ensures WriteEnds(e, net, path)
  {
    WriteDone(e, net, path, WriteRank(e, Last(path)));
    assert !Write(e, net, path, WriteRank(e, Last(path))).Diverged?;
  }
}
