/** Sorted listings by successive minima, and the choice of the lowest free index (`src/cli.c`).
    The tables themselves are neither moved nor marked. */
module Listing {
  import opened Util
  import Counting

  /** The value of an unused slot, and of the strings that end a completion list. */
  const UNUSED: Uint16 := 0xFFFF

  ghost predicate Ascending(s: seq<Uint16>) {
    forall i, j | 0 <= i < j < |s| :: s[i] < s[j]
  }

  /** `out` lists every used key once, in ascending order; `skipZero` leaves out the key 0. A slot
      that holds 0xFFFF is not used. */
  ghost predicate Lists(out: seq<Uint16>, keys: seq<Uint16>, skipZero: bool) {
    && Ascending(out)
    && forall x: Uint16 :: x in out <==> x in keys && x != 0xFFFF && (skipZero ==> x != 0)
  }

  lemma EmptyOrFirst(s: seq<Uint16>)
    ensures s == [] <==> forall x: Uint16 :: x !in s
  {
    assert s == [] || s[0] in s;
  }

  lemma TailOf(s: seq<Uint16>)
    requires Ascending(s) && s != []
    ensures s == [s[0]] + s[1..]
    ensures forall x: Uint16 :: x in s[1..] <==> x in s && x != s[0]
    ensures forall x: Uint16 | x in s :: s[0] <= x
  {
  }

  /** There is only one such list. */
  lemma {:induction false} ListingIsUnique(a: seq<Uint16>, b: seq<Uint16>)
    requires Ascending(a) && Ascending(b)
    requires forall x: Uint16 :: x in a <==> x in b
    ensures a == b
  {
    EmptyOrFirst(a);
    EmptyOrFirst(b);
    if a != [] {
      assert a[0] in b && b[0] in a;
      TailOf(a);
      TailOf(b);
      ListingIsUnique(a[1..], b[1..]);
    }
  }

  /** Whether a key is still to come after `last`; `open` is the first round. */
  predicate Eligible(x: Uint16, last: Uint16, open: bool) {
    x < UNUSED && (open || x > last)
  }

  /** The inner loop: the least eligible key and a slot that holds it, or `UNUSED`. */
  method NextLowest(keys: seq<Uint16>, last: Uint16, open: bool) returns (lowest: Uint16, idx: nat)
    ensures lowest != UNUSED ==> idx < |keys| && keys[idx] == lowest && Eligible(lowest, last, open)
    ensures forall x | x in keys && Eligible(x, last, open) :: lowest <= x
    ensures lowest == UNUSED <==> forall x | x in keys :: !Eligible(x, last, open)
    ensures lowest != UNUSED ==> lowest !in keys[..idx]
  {
    lowest, idx := UNUSED, 0;
    for j := 0 to |keys|
      invariant lowest != UNUSED ==> idx < j && keys[idx] == lowest && Eligible(lowest, last, open)
      invariant forall k | 0 <= k < j && Eligible(keys[k], last, open) :: lowest <= keys[k]
      invariant lowest != UNUSED ==> lowest !in keys[..idx]
    {
      if keys[j] < lowest {
        if open || keys[j] > last {
          lowest, idx := keys[j], j;
        }
      }
    }
  }

  /** How far a listing has come: `out` is the used keys up to the last one listed. */
  ghost predicate ListedUpTo(out: seq<Uint16>, keys: seq<Uint16>, skipZero: bool) {
    && Ascending(out)
    && (forall x | x in out :: x in keys && x != UNUSED && (skipZero ==> x != 0))
    && (forall x | x in keys && x != UNUSED && (skipZero ==> x != 0) ::
          out != [] && x <= out[|out| - 1] ==> x in out)
  }

  lemma ListNext(out: seq<Uint16>, keys: seq<Uint16>, skipZero: bool, x: Uint16)
    requires ListedUpTo(out, keys, skipZero)
    requires x in keys && x != UNUSED && (skipZero ==> x != 0) && (out == [] || x > out[|out| - 1])
    requires forall y | y in keys && y != UNUSED && (skipZero ==> y != 0) ::
               (out == [] || y > out[|out| - 1]) ==> x <= y
    ensures ListedUpTo(out + [x], keys, skipZero)
  {
  }

  /** A listing with an entry for every slot has run out of keys. */
  lemma AsLongAsTheTable(out: seq<Uint16>, keys: seq<Uint16>, skipZero: bool)
    requires ListedUpTo(out, keys, skipZero) && |out| >= |keys|
    ensures Lists(out, keys, skipZero)
  {
    AscendingSize(out);
    Counting.ElementsSize(keys);
    var a, b := Counting.Elements(out), Counting.Elements(keys);
    forall x | x in keys ensures x in out {
      if x !in a {
        Counting.SubsetSize(a + {x}, b);
      }
    }
  }

  lemma {:induction false} AscendingSize(s: seq<Uint16>)
    requires Ascending(s)
    ensures |Counting.Elements(s)| == |s|
  {
    if s != [] {
      var front := s[..|s| - 1];
      AscendingSize(front);
      assert s == front + [s[|s| - 1]];
      assert Counting.Elements(s) == Counting.Elements(front) + {s[|s| - 1]};
    }
  }

  /** `subnet_list` and `appkey_list`: prints until the minimum is `UNUSED` or every slot had its
      round. `slots[i]` is the table slot the i-th line is printed from, the
      first that holds the key. */
  method PrintSorted(keys: seq<Uint16>) returns (out: seq<Uint16>, slots: seq<nat>)
    ensures Lists(out, keys, false)
    ensures |slots| == |out|
    ensures forall i | 0 <= i < |out| :: slots[i] < |keys| && keys[slots[i]] == out[i] && out[i] !in keys[..slots[i]]
  {
    out, slots := [], [];
    var last: Uint16 := 0;
    for i := 0 to |keys|
      invariant |out| == i && (i > 0 ==> last == out[i - 1])
      invariant ListedUpTo(out, keys, false)
      invariant |slots| == |out|
      invariant forall k | 0 <= k < |out| :: slots[k] < |keys| && keys[slots[k]] == out[k] && out[k] !in keys[..slots[k]]
    {
      var lowest, idx := NextLowest(keys, last, i == 0);
      if lowest == UNUSED {
        return;
      }
      ListNext(out, keys, false, lowest);
      out := out + [lowest];
      slots := slots + [idx];
      last := lowest;
    }
    AsLongAsTheTable(out, keys, false);
  }

  /** The completion lists: one string for every slot, `UNUSED` once the keys have run out.
      `get_dynamic_appkeys` opens its first round to the key 0; `get_dynamic_addr` and
      `get_dynamic_sub_addr` do not, so they leave 0 out. Keys may repeat. */
  method FillCompletions(keys: seq<Uint16>, skipZero: bool) returns (strings: seq<Uint16>, ghost n: nat)
    ensures |strings| == |keys| && n <= |strings|
    ensures Lists(strings[..n], keys, skipZero)
    ensures forall i | n <= i < |strings| :: strings[i] == UNUSED
  {
    strings, n := [], 0;
    var last: Uint16 := 0;
    for i := 0 to |keys|
      invariant |strings| == i && n <= i
      invariant ListedUpTo(strings[..n], keys, skipZero)
      invariant n < i ==> last == UNUSED && Lists(strings[..n], keys, skipZero)
      invariant n == i ==> last == if i > 0 then strings[i - 1] else 0
      invariant forall k | n <= k < i :: strings[k] == UNUSED
    {
      var lowest, idx := NextLowest(keys, last, i == 0 && !skipZero);
      ghost var listed := strings[..n];
      strings := strings + [lowest];
      assert strings[..n] == listed;
      if n == i && lowest != UNUSED {
        ListNext(listed, keys, skipZero, lowest);
        n := n + 1;
        assert strings[..n] == listed + [lowest];
      }
      last := lowest;
    }
    if n == |keys| {
      assert strings[..n] == strings;
      AsLongAsTheTable(strings, keys, skipZero);
    }
  }

  // ---------------------------------------------------------------- the lowest free index

  /** A table cannot hold more consecutive indices than it has slots. */
  lemma ConsecutiveInTable(used: seq<Uint16>, from: nat, n: nat)
    requires from + n <= 0x1_0000 && forall k: Uint16 | from <= k < from + n :: k in used
    ensures n <= |used|
  {
    var shifted := seq(|used|, i requires 0 <= i < |used| => if used[i] >= from then used[i] - from else 0);
    forall k: nat | k < n ensures k in shifted {
      var x: Uint16 := from + k;
      assert x in used;
      var i :| 0 <= i < |used| && used[i] == from + k;
      assert shifted[i] == k;
    }
    Counting.Pigeonhole(shifted, n);
  }

  /** `get_lowest_net_idx` (from 1) and `get_lowest_app_idx` (from 0): the least free index, after
      at most one probe more than the table has slots, and without the 16-bit counter wrapping. */
  method LowestFree(used: seq<Uint16>, from: Uint16) returns (idx: Uint16)
    requires from + |used| < 0x1_0000
    ensures from <= idx <= from + |used| && idx !in used
    ensures forall k: Uint16 | from <= k < idx :: k in used
  {
    idx := from;
    while idx in used
      invariant from <= idx <= from + |used|
      invariant forall k: Uint16 | from <= k < idx :: k in used
      decreases from + |used| - idx
    {
      ConsecutiveInTable(used, from, idx + 1 - from);
      idx := (idx + 1) % 0x1_0000;
    }
  }
}
