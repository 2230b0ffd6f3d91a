/**
  Absolute expiry times and the form in which nodes send them to each other.

  A `Time` counts nanoseconds from the Unix epoch. Go's zero `time.Time` (midnight, 1 January of
  year 1) means "no expiry"; it is an ordinary instant with a negative millisecond value, and every
  receiver turns a value that is not positive back into the zero time.
 */
module Expiry {

  type Time = int

  const MILLI := 1_000_000

  /** The zero `time.Time`. */
  const NEVER: Time := -62_135_596_800 * 1_000_000_000

  /** True when a copy with expiry `t` is treated as absent at `now`. */
  predicate Expired(t: Time, now: Time) {
    t != NEVER && t <= now
  }

  /** `Time.UnixMilli`: rounds towards minus infinity. */
  function UnixMilli(t: Time): int {
    t / MILLI
  }

  /** The receiver's side: only a positive value is an expiry. */
  function Decode(ms: int): Time {
    if ms > 0 then ms * MILLI else NEVER
  }

  /** One transfer of an expiry from a node to another. */
  function Hop(t: Time): Time {
    Decode(UnixMilli(t))
  }

  /** `n` transfers in a row, as when a replica heals a primary that later migrates the key. */
  function Hops(t: Time, n: nat): Time {
    if n == 0 then t else Hop(Hops(t, n - 1))
  }

  /** The expiry rounded down to a whole millisecond; `NEVER` stays `NEVER`. */
  function Floor(t: Time): Time {
    if t == NEVER then NEVER else t / MILLI * MILLI
  }

  /** A transfer keeps "no expiry", and floors an expiry of at least one millisecond. */
  lemma HopIsFloor(t: Time)
    requires t == NEVER || t >= MILLI
    ensures Hop(t) == Floor(t)
    ensures t != NEVER ==> Hop(t) <= t < Hop(t) + MILLI
  {
    if t == NEVER {
      assert NEVER / MILLI < 0;
    } else {
      assert t / MILLI >= 1;
    }
  }

  lemma HopIdempotent(t: Time)
    ensures Hop(Hop(t)) == Hop(t)
  {
    assert NEVER / MILLI < 0;
    var ms := UnixMilli(t);
    if ms > 0 {
      assert ms * MILLI / MILLI == ms;
    }
  }

  /** The expiry is fixed by the first transfer, however long the chain. */
  lemma {:induction false} ChainSettlesAfterOneHop(t: Time, n: nat)
    requires n >= 1
    ensures Hops(t, n) == Hop(t)
  {
    if n == 1 {
      assert Hops(t, 0) == t;
    } else {
      ChainSettlesAfterOneHop(t, n - 1);
      HopIdempotent(t);
    }
  }

  /**
    A transferred copy never outlives the original exactly when the expiry is absent or lies at
    least one millisecond after the epoch; then a whole chain loses less than one millisecond.
   */
  lemma ChainNeverOutlivesIff(t: Time, n: nat)
    requires n >= 1
    ensures (forall now: Time :: Expired(t, now) ==> Expired(Hops(t, n), now)) <==> (t == NEVER || t >= MILLI)
    ensures t == NEVER || t >= MILLI ==>
              forall now: Time :: Expired(Hops(t, n), now) ==> Expired(t, now + MILLI - 1)
  {
    ChainSettlesAfterOneHop(t, n);
    if t == NEVER || t >= MILLI {
      HopIsFloor(t);
    } else {
      assert t / MILLI <= 0;
      assert Hop(t) == NEVER;
      assert Expired(t, t) && !Expired(Hops(t, n), t);
    }
  }

  /** Before the floor of the original expiry no transferred copy counts as expired. */
  lemma ChainAliveBeforeFloor(t: Time, n: nat, now: Time)
    requires t == NEVER || now < Floor(t)
    ensures !Expired(Hops(t, n), now)
  {
    if n == 0 {
      assert t == NEVER || Floor(t) <= t;
    } else {
      ChainSettlesAfterOneHop(t, n);
      assert NEVER / MILLI < 0;
    }
  }

  /** The original is alive while the transferred copy is expired exactly between the floor and the expiry. */
  lemma TransferWindowIff(t: Time, now: Time)
    requires t >= MILLI
    ensures !Expired(t, now) && Expired(Hop(t), now) <==> Floor(t) <= now < t
  {
    HopIsFloor(t);
    assert Floor(t) != NEVER by {
      assert t / MILLI >= 1;
    }
  }

  /** `copied` is the expiry of the item that expires at `t`, or of a copy of it however often transferred. */
  predicate Matches(t: Time, copied: Time) {
    copied == t || copied == Hop(t)
  }

  /** Copying a copy once more keeps the relation to the original. */
  lemma MatchesHop(t: Time, copied: Time)
    requires Matches(t, copied)
    ensures Hop(copied) == Hop(t)
  {
    HopIdempotent(t);
  }

  /** A matching expiry lies between the floor of the original and the original. */
  lemma MatchesWithin(t: Time, copied: Time)
    requires Matches(t, copied) && t >= MILLI
    ensures copied != NEVER && Floor(t) <= copied <= t
  {
    HopIsFloor(t);
  }

  /** `u` was computed like `t` from a clock reading that is not earlier. */
  predicate Spread(t: Time, u: Time) {
    t <= u && (t == NEVER <==> u == NEVER)
  }

  /** A replica's expiry for an item that expires at `t` and was first sent as `u`. */
  predicate Transferred(t: Time, u: Time, copied: Time) {
    copied == Hop(t) || (Spread(t, u) && copied == Hop(u))
  }

  /** Such a copy is alive before the floor of `t`, and outlasts neither `t` nor `u`. */
  lemma TransferredWithin(t: Time, u: Time, copied: Time, now: Time)
    requires Transferred(t, u, copied)
    ensures t == NEVER || now < Floor(t) ==> !Expired(copied, now)
    ensures t >= MILLI ==> copied != NEVER && Floor(t) <= copied <= if t <= u then u else t
    ensures t == NEVER ==> copied == NEVER
  {
    HopIsFloor(NEVER);
    if t >= MILLI {
      HopIsFloor(t);
      if t <= u {
        HopIsFloor(u);
      }
    }
    if t == NEVER || now < Floor(t) {
      ChainAliveBeforeFloor(t, 1, now);
      assert Hops(t, 0) == t && Hops(t, 1) == Hop(t);
      if t != NEVER && t <= u && u != NEVER {
        assert now < Floor(u);
        ChainAliveBeforeFloor(u, 1, now);
        assert Hops(u, 0) == u && Hops(u, 1) == Hop(u);
      }
    }
  }
}
