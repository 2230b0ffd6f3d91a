/** Sequence operations shared by the ring, the store and the protocols. */
module Lists {

  datatype Option<+T> = None | Some(value: T)

  ghost predicate Distinct<T>(s: seq<T>) {
    forall i, j :: 0 <= i < j < |s| ==> s[i] != s[j]
  }

  /** `s` with every occurrence of `x` deleted and the order kept. */
  function Without<T(==, !new)>(s: seq<T>, x: T): (r: seq<T>)
    ensures |r| <= |s|
    ensures forall y :: y in r <==> y in s && y != x
  {
    if s == [] then [] else (if s[0] == x then [] else [s[0]]) + Without(s[1..], x)
  }

  /** The first occurrence of each element of `s`, in order. */
  function Firsts<T(==, !new)>(s: seq<T>): (r: seq<T>)
    ensures |r| <= |s|
    ensures forall y :: y in r <==> y in s
    decreases |s|
  {
    if s == [] then [] else [s[0]] + Firsts(Without(s[1..], s[0]))
  }

  lemma {:induction false} WithoutAbsent<T(!new)>(s: seq<T>, x: T)
    requires x !in s
    ensures Without(s, x) == s
  {
    if s != [] {
      WithoutAbsent(s[1..], x);
    }
  }

  lemma {:induction false} WithoutAppend<T(!new)>(s: seq<T>, t: seq<T>, x: T)
    ensures Without(s + t, x) == Without(s, x) + Without(t, x)
  {
    if s == [] {
      assert s + t == t;
    } else {
      assert (s + t)[1..] == s[1..] + t;
      WithoutAppend(s[1..], t, x);
    }
  }

  lemma {:induction false} WithoutCommutes<T(!new)>(s: seq<T>, x: T, y: T)
    ensures Without(Without(s, x), y) == Without(Without(s, y), x)
  {
    if s != [] {
      WithoutCommutes(s[1..], x, y);
      WithoutAppend(if s[0] == x then [] else [s[0]], Without(s[1..], x), y);
      WithoutAppend(if s[0] == y then [] else [s[0]], Without(s[1..], y), x);
    }
  }

  lemma ConsDistinct<T>(x: T, s: seq<T>)
    requires Distinct(s) && x !in s
    ensures Distinct([x] + s)
  {
    var r := [x] + s;
    forall i, j | 0 <= i < j < |r| ensures r[i] != r[j] {
      assert r[j] == s[j - 1];
      assert i == 0 || r[i] == s[i - 1];
    }
  }

  lemma SnocDistinct<T>(s: seq<T>, x: T)
    requires Distinct(s) && x !in s
    ensures Distinct(s + [x])
  {
    var r := s + [x];
    forall i, j | 0 <= i < j < |r| ensures r[i] != r[j] {
      assert r[i] == s[i];
      assert j == |s| || r[j] == s[j];
    }
  }

  lemma {:induction false} WithoutKeepsDistinct<T(!new)>(s: seq<T>, x: T)
    requires Distinct(s)
    ensures Distinct(Without(s, x))
  {
    if s != [] {
      WithoutKeepsDistinct(s[1..], x);
      forall j | 0 <= j < |s[1..]| ensures s[1..][j] != s[0] {
        assert s[1..][j] == s[j + 1];
      }
      if s[0] != x {
        ConsDistinct(s[0], Without(s[1..], x));
      }
    }
  }

  lemma {:induction false} FirstsDistinct<T(!new)>(s: seq<T>)
    ensures Distinct(Firsts(s))
    decreases |s|
  {
    if s != [] {
      FirstsDistinct(Without(s[1..], s[0]));
      ConsDistinct(s[0], Firsts(Without(s[1..], s[0])));
    }
  }

  /** Deleting an element and keeping first occurrences commute. */
  lemma {:induction false} FirstsWithout<T(!new)>(s: seq<T>, n: T)
    ensures Firsts(Without(s, n)) == Without(Firsts(s), n)
    decreases |s|
  {
    if s != [] {
      var x, t := s[0], s[1..];
      var u := Without(t, x);
      FirstsWithout(u, n);
      assert Without(s, n) == (if x == n then [] else [x]) + Without(t, n);
      if x == n {
        WithoutAbsent(u, n);
        assert Without(s, n) == u;
        assert Without([x] + Firsts(u), n) == Without(Firsts(u), n);
      } else {
        WithoutCommutes(t, n, x);
        assert Firsts(Without(s, n)) == [x] + Firsts(Without(Without(t, n), x));
        assert Without([x] + Firsts(u), n) == [x] + Without(Firsts(u), n);
      }
    }
  }

  /** First occurrences grow at the end as the list does. */
  lemma {:induction false} FirstsSnoc<T(!new)>(s: seq<T>, x: T)
    ensures Firsts(s + [x]) == if x in s then Firsts(s) else Firsts(s) + [x]
    decreases |s|
  {
    if s == [] {
      assert s + [x] == [x];
    } else {
      var u := Without(s[1..], s[0]);
      assert (s + [x])[1..] == s[1..] + [x];
      WithoutAppend(s[1..], [x], s[0]);
      if x == s[0] {
        assert Without([x], s[0]) == [];
        assert Without(s[1..] + [x], s[0]) == u;
      } else {
        assert Without([x], s[0]) == [x];
        FirstsSnoc(u, x);
      }
    }
  }

  /** The first occurrences of a prefix are a prefix of the first occurrences. */
  lemma {:induction false} FirstsPrefix<T(!new)>(s: seq<T>, t: seq<T>)
    ensures Firsts(s) <= Firsts(s + t)
    decreases |t|
  {
    if t == [] {
      assert s + t == s;
    } else {
      assert s + t == (s + [t[0]]) + t[1..];
      FirstsSnoc(s, t[0]);
      FirstsPrefix(s + [t[0]], t[1..]);
    }
  }

  /** First occurrences come in the order in which they are first met. */
  lemma FirstsInOrder<T(!new)>(s: seq<T>, a: nat, b: nat, i: nat, j: nat)
    requires a < b < |s| && s[b] !in s[..b]
    requires i < |Firsts(s)| && Firsts(s)[i] == s[a] && j < |Firsts(s)| && Firsts(s)[j] == s[b]
    ensures i < j
  {
    var front := Firsts(s[..b]);
    FirstsPrefix(s[..b], s[b..]);
    assert s[..b] + s[b..] == s;
    FirstsDistinct(s);
    assert s[..b][a] == s[a] && s[a] in front;
    var k :| 0 <= k < |front| && front[k] == s[a];
    assert Firsts(s)[k] == s[a];
    assert k == i;
    assert forall m :: 0 <= m < |front| ==> front[m] in front && front[m] != s[b];
  }

  /** A list without repetitions is as long as its set of elements is large. */
  lemma {:induction false} DistinctLength<T(!new)>(s: seq<T>, elems: set<T>)
    requires Distinct(s)
    requires forall x :: x in s <==> x in elems
    ensures |s| == |elems|
  {
    if s == [] {
      assert elems == {};
    } else {
      var rest := elems - {s[0]};
      forall x ensures x in s[1..] <==> x in rest {
        if x in s[1..] {
          var i :| 0 <= i < |s[1..]| && s[1..][i] == x;
          assert s[i + 1] == x;
        }
      }
      DistinctLength(s[1..], rest);
    }
  }
}
