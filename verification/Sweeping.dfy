/**
  When the background sweep runs is invisible to clients of a store without eviction, as long as the
  clock does not run backwards: both the swept store and one that never removes an expired copy give
  the same answers. Versions are not part of the answers; `SweepChangesSetVersionIff` says why.
 */
module Sweeping {
  import opened Lists
  import opened Expiry
  import opened StoreSpec

  datatype ClientOp =
    | Set(key: string, value: string, ttl: int)
    | SetWithExpiry(key: string, value: string, expiresAt: Time)
    | Get(key: string)
    | Delete(key: string)
    | Keys
    | Sweep

  /** An operation and the clock reading it used. */
  datatype Event = Event(now: Time, op: ClientOp)

  datatype Answer = Got(value: Option<string>) | Listed(keys: set<string>) | Done

  predicate Monotone(trace: seq<Event>) {
    forall i, j :: 0 <= i <= j < |trace| ==> trace[i].now <= trace[j].now
  }

  /** The answer an operation gives on contents `m`. */
  function Answered(m: Items, e: Event): Answer {
    match e.op
    case Get(key) => Got(if Live(m, key, e.now) then Some(m[key].value) else None)
    case Keys => Listed(LiveKeys(m, e.now))
    case _ => Done
  }

  /** The contents afterwards: `Get` deletes an expired copy, the sweep all of them. */
  function Next(m: Items, e: Event): Items {
    match e.op
    case Set(key, value, ttl) => Written(m, key, value, Deadline(ttl, e.now))
    case SetWithExpiry(key, value, expiresAt) => Written(m, key, value, expiresAt)
    case Get(key) => Reaped(m, key, e.now)
    case Delete(key) => m - {key}
    case Keys => m
    case Sweep => Swept(m, e.now)
  }

  /** A store that removes keys only when a client deletes them. */
  function NextKeeping(m: Items, e: Event): Items {
    if e.op.Get? || e.op.Sweep? then m else Next(m, e)
  }

  /** The answers to all client operations; sweeps answer nothing. */
  function Answers(m: Items, trace: seq<Event>): seq<Answer>
    decreases |trace|
  {
    if trace == [] then []
    else (if trace[0].op.Sweep? then [] else [Answered(m, trace[0])]) + Answers(Next(m, trace[0]), trace[1..])
  }

  function AnswersKeeping(m: Items, trace: seq<Event>): seq<Answer>
    decreases |trace|
  {
    if trace == [] then []
    else
      var first := if trace[0].op.Sweep? then [] else [Answered(m, trace[0])];
      first + AnswersKeeping(NextKeeping(m, trace[0]), trace[1..])
  }

  function WithoutSweeps(trace: seq<Event>): seq<Event> {
    if trace == [] then []
    else (if trace[0].op.Sweep? then [] else [trace[0]]) + WithoutSweeps(trace[1..])
  }

  /** From `now` on, both hold the same unexpired values with the same expiries. */
  ghost predicate Indistinguishable(a: Items, b: Items, now: Time) {
    forall k :: Live(a, k, now) || Live(b, k, now) ==>
                  k in a && k in b && a[k].value == b[k].value && a[k].expiresAt == b[k].expiresAt
  }

  lemma StepKeepsIndistinguishable(a: Items, b: Items, e: Event)
    requires Indistinguishable(a, b, e.now)
    ensures Answered(a, e) == Answered(b, e)
    ensures Indistinguishable(Next(a, e), NextKeeping(b, e), e.now)
  {
    assert forall k :: Live(a, k, e.now) <==> Live(b, k, e.now);
    assert LiveKeys(a, e.now) == LiveKeys(b, e.now);
  }

  lemma {:induction false} KeepingSimulates(a: Items, b: Items, trace: seq<Event>)
    requires Monotone(trace)
    requires trace != [] ==> Indistinguishable(a, b, trace[0].now)
    ensures Answers(a, trace) == AnswersKeeping(b, trace)
    decreases |trace|
  {
    if trace != [] {
      var e := trace[0];
      StepKeepsIndistinguishable(a, b, e);
      if |trace| > 1 {
        assert trace[1..][0] == trace[1];
        assert forall k :: Live(Next(a, e), k, trace[1].now) ==> Live(Next(a, e), k, e.now);
        assert forall k :: Live(NextKeeping(b, e), k, trace[1].now) ==> Live(NextKeeping(b, e), k, e.now);
      }
      assert forall i :: 0 <= i < |trace[1..]| ==> trace[1..][i] == trace[i + 1];
      KeepingSimulates(Next(a, e), NextKeeping(b, e), trace[1..]);
    }
  }

  lemma {:induction false} KeepingIgnoresSweeps(m: Items, trace: seq<Event>)
    ensures AnswersKeeping(m, trace) == AnswersKeeping(m, WithoutSweeps(trace))
    decreases |trace|
  {
    if trace != [] {
      KeepingIgnoresSweeps(NextKeeping(m, trace[0]), trace[1..]);
      var rest := WithoutSweeps(trace[1..]);
      if trace[0].op.Sweep? {
        assert WithoutSweeps(trace) == rest;
      } else {
        assert WithoutSweeps(trace)[0] == trace[0];
        assert WithoutSweeps(trace)[1..] == rest;
      }
    }
  }

  /**
    Wherever sweeps are inserted, clients get the same answers: two runs of a non-evicting store
    with the same client operations and clock readings cannot be told apart.
   */
  lemma SweepsAreTransparent(m: Items, trace: seq<Event>, trace': seq<Event>)
    requires Monotone(trace) && Monotone(trace')
    requires WithoutSweeps(trace) == WithoutSweeps(trace')
    ensures Answers(m, trace) == Answers(m, trace')
  {
    KeepingSimulates(m, m, trace);
    KeepingSimulates(m, m, trace');
    KeepingIgnoresSweeps(m, trace);
    KeepingIgnoresSweeps(m, trace');
  }

  /** `SetVersion` does notice sweeps: exactly when an expired copy at that version or above lingers. */
  lemma SweepChangesSetVersionIff(m: Items, key: string, version: int, now: Time)
    ensures Refuses(m, key, version) != Refuses(Swept(m, now), key, version)
            <==> key in m && Expired(m[key].expiresAt, now) && m[key].version >= version
  {
  }
}
