/** Counting in sequences, and the pigeonhole argument behind every unbounded search for
    something free. */
module Counting {

  ghost function Below(n: nat): set<nat> {
    if n == 0 then {} else Below(n - 1) + {n - 1}
  }

  lemma {:induction false} BelowSize(n: nat)
    ensures |Below(n)| == n
    ensures forall k: nat :: k in Below(n) <==> k < n
  {
    if n > 0 {
      BelowSize(n - 1);
    }
  }

  ghost function Elements<T>(s: seq<T>): set<T> {
    set x | x in s
  }

  lemma {:induction false} ElementsSize<T>(s: seq<T>)
    ensures |Elements(s)| <= |s|
  {
    if s != [] {
      ElementsSize(s[1..]);
      assert Elements(s) == Elements(s[1..]) + {s[0]};
    }
  }

  lemma SubsetSize<T>(a: set<T>, b: set<T>)
    requires a <= b
    ensures |a| <= |b|
  {
    assert b == a + (b - a);
  }

  /** A sequence that mentions every number below `n` has at least `n` entries. */
  lemma Pigeonhole(s: seq<nat>, n: nat)
    requires forall k: nat | k < n :: k in s
    ensures |s| >= n
  {
    BelowSize(n);
    ElementsSize(s);
    SubsetSize(Below(n), Elements(s));
  }

  function Occurrences<T(==)>(s: seq<T>, x: T): nat {
    if s == [] then 0 else (if s[0] == x then 1 else 0) + Occurrences(s[1..], x)
  }

  lemma {:induction false} OccurrencesOf<T>(s: seq<T>, x: T)
    ensures Occurrences(s, x) > 0 <==> x in s
  {
    if s != [] {
      OccurrencesOf(s[1..], x);
      assert s == [s[0]] + s[1..];
    }
  }

  lemma OccursOnce<T>(x: T, y: T)
    ensures Occurrences([x], y) == if x == y then 1 else 0
  {
    assert [x][1..] == [];
  }

  lemma {:induction false} OccurrencesAppend<T>(s: seq<T>, t: seq<T>, x: T)
    ensures Occurrences(s + t, x) == Occurrences(s, x) + Occurrences(t, x)
  {
    if s == [] {
      assert s + t == t;
    } else {
      OccurrencesAppend(s[1..], t, x);
      assert (s + t)[1..] == s[1..] + t;
    }
  }
}
