/** The tables of `src/btmesh.c` that are kept in UUID order: entries at the front of a
    fixed array, a moving tail, insertion by shifting from the tail. */
module SortedTable {
  import opened Util

  /** A table slot: the UUID, its printed form, and what else the table records about it. */
  datatype Entry<+T> = Entry(uuid: Uuid, text: string, info: T)

  ghost predicate Sorted<T>(s: seq<Entry<T>>) {
    forall i, j | 0 <= i < j < |s| :: s[i].uuid < s[j].uuid
  }

  ghost predicate Printed<T>(s: seq<Entry<T>>) {
    forall i | 0 <= i < |s| :: s[i].text == UuidText(s[i].uuid)
  }

  predicate Has<T>(s: seq<Entry<T>>, u: Uuid) {
    exists i | 0 <= i < |s| :: s[i].uuid == u
  }

  ghost function Uuids<T>(s: seq<Entry<T>>): set<Uuid> {
    set i | 0 <= i < |s| :: s[i].uuid
  }

  /** Where the scan from the tail stops: below every entry that is greater than `u`. */
  function Position<T>(s: seq<Entry<T>>, u: Uuid): (p: nat)
    ensures p <= |s|
    ensures p == |s| || u < s[p].uuid
    ensures p == 0 || u >= s[p - 1].uuid
  {
    if s == [] then 0
    else if u < s[|s| - 1].uuid then Position(s[..|s| - 1], u)
    else |s|
  }

  function Insert<T>(s: seq<Entry<T>>, e: Entry<T>): seq<Entry<T>> {
    var p := Position(s, e.uuid);
    s[..p] + [e] + s[p..]
  }

  function RemoveAt<T>(s: seq<Entry<T>>, i: nat): seq<Entry<T>>
    requires i < |s|
  {
    s[..i] + s[i + 1..]
  }

  /** The first slot that holds `u`, or the length of the table. */
  function Find<T>(s: seq<Entry<T>>, u: Uuid): (i: nat)
    ensures i <= |s|
    ensures i < |s| ==> s[i].uuid == u
    ensures forall k | 0 <= k < i :: s[k].uuid != u
    ensures i < |s| <==> Has(s, u)
  {
    if s == [] then 0 else if s[0].uuid == u then 0 else
      var r := Find(s[1..], u);
      assert r < |s[1..]| ==> s[r + 1].uuid == u;
      assert Has(s[1..], u) <==> Has(s, u) by {
        if i :| 0 <= i < |s| && s[i].uuid == u { assert s[1..][i - 1].uuid == u; }
      }
      1 + r
  }

  lemma {:induction false} PositionIs<T>(s: seq<Entry<T>>, u: Uuid, p: nat)
    requires p <= |s|
    requires p == 0 || u >= s[p - 1].uuid
    requires forall k | p <= k < |s| :: u < s[k].uuid
    ensures Position(s, u) == p
  {
    if p < |s| {
      PositionIs(s[..|s| - 1], u, p);
    }
  }

  /** In a sorted table the scan stops exactly between the smaller and the greater entries. */
  lemma PositionSplits<T>(s: seq<Entry<T>>, u: Uuid)
    requires Sorted(s) && !Has(s, u)
    ensures forall i | 0 <= i < Position(s, u) :: s[i].uuid < u
    ensures forall i | Position(s, u) <= i < |s| :: u < s[i].uuid
  {
  }

  /** Slots of the table after an insertion. */
  lemma InsertSlots<T>(s: seq<Entry<T>>, e: Entry<T>)
    ensures var r, p := Insert(s, e), Position(s, e.uuid);
            && r[p] == e
            && (forall i | 0 <= i < p :: r[i] == s[i])
            && (forall i | p < i < |r| :: r[i] == s[i - 1])
  {
    hide Position;
  }

  lemma InsertKeepsPrinted<T>(s: seq<Entry<T>>, e: Entry<T>)
    requires Printed(s) && e.text == UuidText(e.uuid)
    ensures Printed(Insert(s, e))
  {
  }

  lemma InsertHas<T>(s: seq<Entry<T>>, e: Entry<T>, u: Uuid)
    ensures Has(Insert(s, e), u) <==> u == e.uuid || Has(s, u)
  {
    var r, p := Insert(s, e), Position(s, e.uuid);
    InsertSlots(s, e);
    if i :| 0 <= i < |s| && s[i].uuid == u {
      assert r[if i < p then i else i + 1].uuid == u;
    }
    if j :| 0 <= j < |r| && r[j].uuid == u {
      assert j == p || s[if j < p then j else j - 1].uuid == u;
    }
  }

  lemma RemoveHas<T>(s: seq<Entry<T>>, i: nat, u: Uuid)
    requires i < |s|
    ensures Has(RemoveAt(s, i), u) ==> Has(s, u)
    ensures Has(s, u) && s[i].uuid != u ==> Has(RemoveAt(s, i), u)
    ensures Sorted(s) && s[i].uuid == u ==> !Has(RemoveAt(s, i), u)
  {
    var r := RemoveAt(s, i);
    if k :| 0 <= k < |s| && s[k].uuid == u && k != i {
      assert r[if k < i then k else k - 1].uuid == u;
    }
    if j :| 0 <= j < |r| && r[j].uuid == u {
      assert s[if j < i then j else j + 1].uuid == u;
    }
  }

  lemma InsertKeepsOrder<T>(s: seq<Entry<T>>, e: Entry<T>)
    requires Sorted(s) && !Has(s, e.uuid)
    ensures Sorted(Insert(s, e))
  {
  }

  lemma InsertAddsOne<T>(s: seq<Entry<T>>, e: Entry<T>)
    ensures Uuids(Insert(s, e)) == Uuids(s) + {e.uuid}
  {
    var p := Position(s, e.uuid);
    var r := Insert(s, e);
    assert r[p] == e;
    forall u | u in Uuids(s) ensures u in Uuids(r) {
      var i :| 0 <= i < |s| && s[i].uuid == u;
      assert if i < p then r[i] == s[i] else r[i + 1] == s[i];
    }
    forall u | u in Uuids(r) ensures u in Uuids(s) + {e.uuid} {
      var i :| 0 <= i < |r| && r[i].uuid == u;
      assert i < p ==> r[i] == s[i];
      assert i > p ==> r[i] == s[i - 1];
    }
  }

  lemma RemoveKeepsOrder<T>(s: seq<Entry<T>>, i: nat)
    requires Sorted(s) && i < |s|
    ensures Sorted(RemoveAt(s, i))
    ensures Uuids(RemoveAt(s, i)) == Uuids(s) - {s[i].uuid}
  {
    RemoveSlots(s, i);
    RemoveDropsOne(s, i);
    hide RemoveAt;
    hide Uuids;
  }

  /** Slots of the table after a removal. */
  lemma RemoveSlots<T>(s: seq<Entry<T>>, i: nat)
    requires i < |s|
    ensures var r := RemoveAt(s, i);
            && |r| == |s| - 1
            && (forall k | 0 <= k < i :: r[k] == s[k])
            && (forall k | i <= k < |r| :: r[k] == s[k + 1])
  {
  }

  lemma ClosedUp<T>(s: seq<Entry<T>>, i: nat, r: seq<Entry<T>>)
    requires i < |s| == |r| + 1
    requires forall k | 0 <= k < i :: r[k] == s[k]
    requires forall k | i <= k < |r| :: r[k] == s[k + 1]
    ensures r == RemoveAt(s, i)
  {
  }

  lemma RemoveDropsOne<T>(s: seq<Entry<T>>, i: nat)
    requires Sorted(s) && i < |s|
    ensures Uuids(RemoveAt(s, i)) == Uuids(s) - {s[i].uuid}
  {
    RemoveSlots(s, i);
    hide RemoveAt;
    var r := RemoveAt(s, i);
    forall u | u in Uuids(s) - {s[i].uuid} ensures u in Uuids(r) {
      var k :| 0 <= k < |s| && s[k].uuid == u;
      assert r[if k < i then k else k - 1].uuid == u;
    }
    forall u | u in Uuids(r) ensures u in Uuids(s) - {s[i].uuid} {
      var k :| 0 <= k < |r| && r[k].uuid == u;
      assert r[k] == s[if k < i then k else k + 1];
    }
  }

  /** Taking out what was just put in gives the table back. */
  lemma RemoveUndoesInsert<T>(s: seq<Entry<T>>, e: Entry<T>)
    requires Sorted(s) && !Has(s, e.uuid)
    ensures var r := Insert(s, e);
            Find(r, e.uuid) < |r| && RemoveAt(r, Find(r, e.uuid)) == s
  {
    hide Position;
    hide Find;
    FindInserted(s, e);
    RemoveInserted(s, e);
  }

  lemma FindIs<T>(s: seq<Entry<T>>, u: Uuid, p: nat)
    requires p < |s| && s[p].uuid == u
    requires forall k | 0 <= k < p :: s[k].uuid != u
    ensures Find(s, u) == p
  {
    hide Find;
  }

  lemma FindInserted<T>(s: seq<Entry<T>>, e: Entry<T>)
    requires Sorted(s) && !Has(s, e.uuid)
    ensures Find(Insert(s, e), e.uuid) == Position(s, e.uuid) < |Insert(s, e)|
  {
    hide Position;
    hide Find;
    PositionSplits(s, e.uuid);
    InsertSlots(s, e);
    FindIs(Insert(s, e), e.uuid, Position(s, e.uuid));
  }

  lemma RemoveInserted<T>(s: seq<Entry<T>>, e: Entry<T>)
    ensures var r, p := Insert(s, e), Position(s, e.uuid);
            p < |r| && RemoveAt(r, p) == s
  {
    hide Position;
  }

  lemma EmptyHasNoUuids<T>(s: seq<Entry<T>>)
    ensures s == [] <==> Uuids(s) == {}
  {
    assert s != [] ==> s[0].uuid in Uuids(s);
  }

  /** Two sorted tables with the same UUIDs list them in the same places: the order leaves no
      trace of the history. */
  lemma {:induction false} SortedIsCanonical<T>(s: seq<Entry<T>>, t: seq<Entry<T>>)
    requires Sorted(s) && Sorted(t) && Uuids(s) == Uuids(t)
    ensures |s| == |t| && forall i | 0 <= i < |s| :: s[i].uuid == t[i].uuid
  {
    EmptyHasNoUuids(s);
    EmptyHasNoUuids(t);
    if s != [] {
      var last := |s| - 1;
      assert s[last].uuid in Uuids(t);
      var end := |t| - 1;
      assert t[end].uuid in Uuids(s);
      RemoveKeepsOrder(s, last);
      RemoveKeepsOrder(t, end);
      SortedIsCanonical(RemoveAt(s, last), RemoveAt(t, end));
      assert RemoveAt(s, last) == s[..last] && RemoveAt(t, end) == t[..end];
      forall i | 0 <= i < |s| ensures s[i].uuid == t[i].uuid {
        assert i < last ==> RemoveAt(s, last)[i] == s[i] && RemoveAt(t, end)[i] == t[i];
      }
    }
  }

  /** The printed column is in `strcmp` order too. */
  lemma SortedByText<T>(s: seq<Entry<T>>, i: nat, j: nat)
    requires Sorted(s) && Printed(s) && i < j < |s|
    ensures |s[i].text| == |s[j].text| && TextCmp(s[i].text, s[j].text) < 0
  {
    UuidTextOrder(s[i].uuid, s[j].uuid);
  }

  // ---------------------------------------------------------------- arrays

  /** The insertion loop: shifts greater entries one slot towards the tail and writes the new
      entry into the gap. */
  method ShiftInsert<T>(a: array<Entry<T>>, tail: nat, e: Entry<T>) returns (p: nat)
    requires tail < a.Length
    modifies a
    ensures p == Position(old(a[..tail]), e.uuid)
    ensures a[..tail + 1] == Insert(old(a[..tail]), e)
  {
    hide Position;
    hide Insert;
    ghost var s := a[..tail];
    p := tail;
    while p != 0
      invariant 0 <= p <= tail
      invariant forall k | 0 <= k < p :: a[k] == s[k]
      invariant forall k | p < k <= tail :: a[k] == s[k - 1]
      invariant forall k | p <= k < tail :: e.uuid < s[k].uuid
    {
      var x := a[p - 1];
      assert x == s[p - 1];
      if e.uuid < x.uuid {
        a[p] := x;
      } else {
        break;
      }
      p := p - 1;
    }
    a[p] := e;
    PositionIs(s, e.uuid, p);
    ghost var r := a[..tail + 1];
    assert |r| == |s| + 1 && r[p] == e;
    assert forall k | 0 <= k < p :: r[k] == s[k];
    assert forall k | p < k < |r| :: r[k] == s[k - 1];
    GapFilled(s, e, p, r);
  }

  lemma GapFilled<T>(s: seq<Entry<T>>, e: Entry<T>, p: nat, r: seq<Entry<T>>)
    requires p == Position(s, e.uuid) && |r| == |s| + 1 && r[p] == e
    requires forall k | 0 <= k < p :: r[k] == s[k]
    requires forall k | p < k < |r| :: r[k] == s[k - 1]
    ensures r == Insert(s, e)
  {
    hide Position;
    Spliced(s, e, p, r);
  }

  lemma Spliced<T>(s: seq<T>, x: T, p: nat, r: seq<T>)
    requires p <= |s| && |r| == |s| + 1 && r[p] == x
    requires forall k | 0 <= k < p :: r[k] == s[k]
    requires forall k | p < k < |r| :: r[k] == s[k - 1]
    ensures r == s[..p] + [x] + s[p..]
  {
    var q := s[..p] + [x] + s[p..];
    forall k | 0 <= k < |r| ensures r[k] == q[k] {
      if k > p {
        assert q[k] == s[p..][k - p - 1];
      }
    }
  }

  /** The removal scan: a search that turns into a shift once the UUID is found. The slot at the
      tail is then copied too; `reach` is the number of slots up to the last one read. */
  method ShiftOver<T>(a: array<Entry<T>>, tail: nat, u: Uuid) returns (found: bool, ghost reach: nat)
    requires tail < a.Length
    modifies a
    ensures found <==> Has(old(a[..tail]), u)
    ensures found ==> a[..tail - 1] == RemoveAt(old(a[..tail]), Find(old(a[..tail]), u))
    ensures !found ==> a[..tail] == old(a[..tail])
    ensures reach == if found then tail + 1 else tail
  {
    hide Find;
    hide Has;
    hide RemoveAt;
    ghost var s := a[..tail];
    ghost var f := Find(s, u);
    found, reach := false, 0;
    var i := 0;
    while i != tail
      invariant 0 <= i <= tail
      invariant found <==> f < i
      invariant reach == if found then i + 1 else i
      invariant forall k | 0 <= k < f :: a[k] == s[k]
      invariant forall k | f <= k < i && k < tail - 1 :: a[k] == s[k + 1]
      invariant forall k | i <= k < tail :: a[k] == s[k]
    {
      assert i + 1 < tail ==> a[i + 1] == s[i + 1];
      if found {
        a[i] := a[i + 1];
        reach := i + 2;
      } else {
        reach := i + 1;
        if u == a[i].uuid {
          found := true;
          a[i] := a[i + 1];
          reach := i + 2;
        }
      }
      i := i + 1;
    }
    if found {
      ghost var r := a[..tail - 1];
      assert forall k | 0 <= k < f :: r[k] == s[k];
      assert forall k | f <= k < |r| :: r[k] == s[k + 1];
      ClosedUp(s, f, r);
    } else {
      assert a[..tail] == s;
    }
  }

  /** A linear search from the front to the tail. */
  method Search<T>(a: array<Entry<T>>, tail: nat, u: Uuid) returns (i: nat)
    requires tail <= a.Length
    ensures i == Find(a[..tail], u)
  {
    i := 0;
    while i != tail
      invariant 0 <= i <= tail
      invariant forall k | 0 <= k < i :: a[k].uuid != u
    {
      if u == a[i].uuid {
        assert a[..tail][i].uuid == u;
        return;
      }
      i := i + 1;
    }
  }
}
