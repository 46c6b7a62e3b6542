/** Node discovery: the four-level structure `btmesh_discover_node` builds on the heap, who owns
    which block of it, and `btmesh_free_node`. */
module Discovery {
  import opened Util
  import opened Composition

  // ---------------------------------------------------------------- heap and tree

  /** The allocator. Block names are never reused, so a block that is freed twice, or freed
      without having been allocated, violates the precondition of `Free`. */
  class Heap {
    ghost var live: set<nat>
    var next: nat
    /** Whether the n-th allocation fails. */
    const fails: nat -> bool

    ghost predicate Valid()
      reads this
    {
      forall b | b in live :: b < next
    }

    constructor (fails: nat -> bool)
      ensures Valid() && live == {} && this.fails == fails
    {
      live, next, this.fails := {}, 0, fails;
    }

    /** `k_malloc` */
    method Alloc() returns (block: Option<nat>)
      requires Valid()
      modifies this
      ensures Valid()
      ensures block.None? ==> live == old(live) && fails(old(next))
      ensures block.Some? ==> block.value !in old(live) && live == old(live) + {block.value}
      ensures block.Some? ==> multiset(live) == multiset(old(live)) + multiset{block.value}
    {
      block := if fails(next) then None else Some(next);
      if block.Some? {
        live := live + {next};
      }
      next := next + 1;
    }

    /** `k_free` of a block that is not NULL. */
    method Free(block: nat)
      requires Valid() && block in live
      modifies this
      ensures Valid() && live == old(live) - {block}
      ensures multiset(live) + multiset{block} == multiset(old(live))
    {
      live := live - {block};
    }
  }

  /** A pointer to a heap block and the cells stored in it. */
  datatype Ptr<+T> = Null | Ptr(block: nat, cells: seq<T>)

  datatype Model = Model(id: ModelId, appkeys: Ptr<Uint16>, subs: Ptr<Uint16>, pub: Option<nat>)

  datatype Elem = Elem(addr: Uint16, loc: Uint16, sigs: Ptr<Model>, vnds: Ptr<Model>)

  // ---------------------------------------------------------------- ownership

  ghost function Own<T>(p: Ptr<T>): multiset<nat> {
    if p.Null? then multiset{} else multiset{p.block}
  }

  ghost function ModelBlocks(m: Model): multiset<nat> {
    Own(m.appkeys) + Own(m.subs)
  }

  ghost function CellBlocks(ms: seq<Model>): multiset<nat> {
    if ms == [] then multiset{} else ModelBlocks(ms[0]) + CellBlocks(ms[1..])
  }

  ghost function ListBlocks(p: Ptr<Model>): multiset<nat> {
    if p.Null? then multiset{} else multiset{p.block} + CellBlocks(p.cells)
  }

  ghost function ElemBlocks(e: Elem): multiset<nat> {
    ListBlocks(e.sigs) + ListBlocks(e.vnds)
  }

  ghost function ElemsBlocks(es: seq<Elem>): multiset<nat> {
    if es == [] then multiset{} else ElemBlocks(es[0]) + ElemsBlocks(es[1..])
  }

  /** All blocks reachable from the element pointer, with their multiplicity. */
  ghost function TreeBlocks(p: Ptr<Elem>): multiset<nat> {
    if p.Null? then multiset{} else multiset{p.block} + ElemsBlocks(p.cells)
  }

  lemma SwapUnder(h: multiset<nat>, a: multiset<nat>, x: multiset<nat>, b: multiset<nat>, y: multiset<nat>)
    requires a + x == b + y
    ensures h + a + x == h + b + y
  {
    assert h + a + x == h + (a + x);
    assert h + b + y == h + (b + y);
  }

  lemma {:induction false} CellBlocksUpdate(ms: seq<Model>, j: nat, m: Model)
    requires j < |ms|
    ensures CellBlocks(ms[j := m]) + ModelBlocks(ms[j]) == CellBlocks(ms) + ModelBlocks(m)
  {
    var r := ms[j := m];
    if j == 0 {
      assert r[1..] == ms[1..];
      SumCommutes(ModelBlocks(m), CellBlocks(ms[1..]), ModelBlocks(ms[0]));
    } else {
      CellBlocksUpdate(ms[1..], j - 1, m);
      assert r[1..] == ms[1..][j - 1 := m];
      SwapUnder(ModelBlocks(ms[0]), CellBlocks(r[1..]), ModelBlocks(ms[j]), CellBlocks(ms[1..]), ModelBlocks(m));
    }
  }

  lemma Cancel(r: multiset<nat>, s: multiset<nat>, x: multiset<nat>, b: multiset<nat>)
    requires r + x == s + (x + b)
    ensures r == s + b
  {
    forall y ensures r[y] == (s + b)[y] {
      assert (r + x)[y] == (s + (x + b))[y];
    }
  }

  lemma SumCommutes(a: multiset<nat>, b: multiset<nat>, c: multiset<nat>)
    ensures a + b + c == c + b + a
  {
  }

  lemma {:induction false} ElemsBlocksUpdate(es: seq<Elem>, i: nat, e: Elem)
    requires i < |es|
    ensures ElemsBlocks(es[i := e]) + ElemBlocks(es[i]) == ElemsBlocks(es) + ElemBlocks(e)
  {
    var r := es[i := e];
    if i == 0 {
      assert r[1..] == es[1..];
      SumCommutes(ElemBlocks(e), ElemsBlocks(es[1..]), ElemBlocks(es[0]));
    } else {
      ElemsBlocksUpdate(es[1..], i - 1, e);
      assert r[1..] == es[1..][i - 1 := e];
      SwapUnder(ElemBlocks(es[0]), ElemsBlocks(r[1..]), ElemBlocks(es[i]), ElemsBlocks(es[1..]), ElemBlocks(e));
    }
  }

  lemma {:induction false} NoCellBlocks(ms: seq<Model>)
    requires forall j | 0 <= j < |ms| :: ms[j].appkeys.Null? && ms[j].subs.Null?
    ensures CellBlocks(ms) == multiset{}
  {
    if ms != [] {
      NoCellBlocks(ms[1..]);
    }
  }

  lemma {:induction false} NoElemBlocks(es: seq<Elem>)
    requires forall i | 0 <= i < |es| :: es[i].sigs.Null? && es[i].vnds.Null?
    ensures ElemsBlocks(es) == multiset{}
  {
    if es != [] {
      NoElemBlocks(es[1..]);
    }
  }

  // ---------------------------------------------------------------- replies

  /** The queries of the discovery, with the element address the request really carries. */
  datatype Query = AppKeys(elem: Uint16, id: ModelId) | Subs(elem: Uint16, id: ModelId) | Pub(elem: Uint16, id: ModelId)

  datatype Reply = Reply(err: int, status: nat, list: seq<Uint16>, pub: nat)

  /** `Overrun` is a crash: more bytes are pulled than the buffer holds, which an assertion catches. */
  datatype Exit = Done | OpFailed(err: int, status: nat) | NoMemory | Overrun

  /** The exits that report a failure. */
  predicate Gone(e: Exit) {
    e.OpFailed? || e.NoMemory?
  }

  /** What the node would answer, were every request delivered. */
  datatype Truth = Truth(apps: (Uint16, ModelId) -> seq<Uint16>, subs: (Uint16, ModelId) -> seq<Uint16>,
                         pub: (Uint16, ModelId) -> nat)

  predicate Good(r: Reply) {
    r.err == 0 && r.status == 0
  }

  /** A reply without error and without status tells what the node has. */
  ghost predicate TellsTruth(r: Reply, q: Query, truth: Truth) {
    r.err == 0 && r.status == 0 ==>
      match q
      case AppKeys(a, m) => r.list == truth.apps(a, m)
      case Subs(a, m) => r.list == truth.subs(a, m)
      case Pub(a, m) => r.pub == truth.pub(a, m)
  }

  ghost predicate Truthful(reply: (nat, Query) -> Reply, truth: Truth) {
    forall n: nat, q: Query :: TellsTruth(reply(n, q), q, truth)
  }

  // ---------------------------------------------------------------- the result

  /** The configuration server, SIG model 0, has no publish parameters to ask for. */
  predicate HasPub(m: ModelId) {
    m != Sig(0)
  }

  /** `m` describes model `id` as queried at element address `a`. */
  ghost predicate Describes(m: Model, a: Uint16, id: ModelId, truth: Truth) {
    && m.id == id
    && m.appkeys.Ptr? && m.appkeys.cells == truth.apps(a, id)
    && m.subs.Ptr? && m.subs.cells == truth.subs(a, id)
    && m.pub == if id == Sig(0) then None else Some(truth.pub(a, id))
  }

  /** The element address the queries for the vendor models of element `i` carry. Only the loop
      over SIG models sets it, so it is that of the last element up to `i` that has a SIG model,
      and `stale`, what the argument union held before, when there is none. */
  function VendorAddr(es: seq<Element>, addr: Uint16, stale: Uint16, i: nat): Uint16
    requires i < |es|
  {
    if es[i].sig != [] then ElemAddr(addr, i)
    else if i == 0 then stale
    else VendorAddr(es, addr, stale, i - 1)
  }

  lemma {:induction false} VendorAddrComesFrom(es: seq<Element>, addr: Uint16, stale: Uint16, i: nat)
    requires i < |es|
    ensures if forall k: nat | k <= i :: es[k].sig == [] then VendorAddr(es, addr, stale, i) == stale
            else exists k: nat | k <= i :: es[k].sig != [] && VendorAddr(es, addr, stale, i) == ElemAddr(addr, k)
  {
    if es[i].sig == [] && i > 0 {
      VendorAddrComesFrom(es, addr, stale, i - 1);
    }
  }

  /** Vendor models are queried at their own element's address exactly when the element has a
      SIG model, or no element up to it has one and the stale address happens to be its own. */
  lemma VendorAddrIsOwnIff(es: seq<Element>, addr: Uint16, stale: Uint16, i: nat)
    requires i < |es| <= 0x1_0000
    ensures VendorAddr(es, addr, stale, i) == ElemAddr(addr, i) <==>
            es[i].sig != [] || (stale == ElemAddr(addr, i) && forall k: nat | k < i :: es[k].sig == [])
  {
    VendorAddrComesFrom(es, addr, stale, i);
  }

  // ---------------------------------------------------------------- one cell of the tree

  function Side(e: Elem, vendor: bool): Ptr<Model> {
    if vendor then e.vnds else e.sigs
  }

  function WithSide(e: Elem, vendor: bool, p: Ptr<Model>): Elem {
    if vendor then e.(vnds := p) else e.(sigs := p)
  }

  predicate HasCell(p: Ptr<Elem>, i: nat, vendor: bool, j: nat) {
    && p.Ptr? && i < |p.cells|
    && Side(p.cells[i], vendor).Ptr? && j < |Side(p.cells[i], vendor).cells|
  }

  function Cell(p: Ptr<Elem>, i: nat, vendor: bool, j: nat): Model
    requires HasCell(p, i, vendor, j)
  {
    Side(p.cells[i], vendor).cells[j]
  }

  function SetSide(p: Ptr<Elem>, i: nat, vendor: bool, side: Ptr<Model>): Ptr<Elem>
    requires p.Ptr? && i < |p.cells|
  {
    p.(cells := p.cells[i := WithSide(p.cells[i], vendor, side)])
  }

  function SetCell(p: Ptr<Elem>, i: nat, vendor: bool, j: nat, m: Model): Ptr<Elem>
    requires HasCell(p, i, vendor, j)
  {
    var side := Side(p.cells[i], vendor);
    SetSide(p, i, vendor, side.(cells := side.cells[j := m]))
  }

  lemma SetCellTwice(p: Ptr<Elem>, i: nat, vendor: bool, j: nat, m: Model, m': Model)
    requires HasCell(p, i, vendor, j)
    ensures var q := SetCell(p, i, vendor, j, m);
      && HasCell(q, i, vendor, j) && Cell(q, i, vendor, j) == m
      && SetCell(q, i, vendor, j, m') == SetCell(p, i, vendor, j, m')
  {
    var side := Side(p.cells[i], vendor);
    assert side.cells[j := m][j := m'] == side.cells[j := m'];
    var q := SetCell(p, i, vendor, j, m);
    var side' := side.(cells := side.cells[j := m']);
    assert WithSide(q.cells[i], vendor, side') == WithSide(p.cells[i], vendor, side');
    assert q.cells[i := WithSide(p.cells[i], vendor, side')] == p.cells[i := WithSide(p.cells[i], vendor, side')];
  }

  lemma SetSideThenCell(p: Ptr<Elem>, i: nat, vendor: bool, side: Ptr<Model>, j: nat, m: Model)
    requires p.Ptr? && i < |p.cells| && side.Ptr? && j < |side.cells|
    ensures var q := SetSide(p, i, vendor, side);
      && HasCell(q, i, vendor, j) && Cell(q, i, vendor, j) == side.cells[j]
      && SetCell(q, i, vendor, j, m) == SetSide(p, i, vendor, side.(cells := side.cells[j := m]))
  {
  }

  lemma SideIsThere(p: Ptr<Elem>, i: nat, vendor: bool)
    requires p.Ptr? && i < |p.cells|
    ensures SetSide(p, i, vendor, Side(p.cells[i], vendor)) == p
  {
  }

  lemma SetSideReads(p: Ptr<Elem>, i: nat, vendor: bool, side: Ptr<Model>)
    requires p.Ptr? && i < |p.cells|
    ensures var q := SetSide(p, i, vendor, side);
            q.Ptr? && |q.cells| == |p.cells| && Side(q.cells[i], vendor) == side
  {
  }

  lemma SetSideBlocks(p: Ptr<Elem>, i: nat, vendor: bool, side: Ptr<Model>)
    requires p.Ptr? && i < |p.cells|
    ensures TreeBlocks(SetSide(p, i, vendor, side)) + ListBlocks(Side(p.cells[i], vendor)) ==
            TreeBlocks(p) + ListBlocks(side)
  {
    var e := p.cells[i];
    var f := WithSide(e, vendor, side);
    ElemsBlocksUpdate(p.cells, i, f);
    var r := SetSide(p, i, vendor, side);
    Rebalance(multiset{p.block}, ElemsBlocks(r.cells), ElemsBlocks(p.cells), ListBlocks(Side(e, !vendor)),
              ListBlocks(Side(e, vendor)), ListBlocks(side));
    assert ElemBlocks(e) == ListBlocks(Side(e, !vendor)) + ListBlocks(Side(e, vendor));
    assert ElemBlocks(f) == ListBlocks(Side(e, !vendor)) + ListBlocks(side);
  }

  /** Hanging an array of models that own nothing yet into an empty place. */
  lemma NewSideBlocks(p: Ptr<Elem>, i: nat, vendor: bool, side: Ptr<Model>)
    requires p.Ptr? && i < |p.cells| && Side(p.cells[i], vendor).Null?
    requires side.Ptr? && forall j | 0 <= j < |side.cells| :: side.cells[j].appkeys.Null? && side.cells[j].subs.Null?
    ensures TreeBlocks(SetSide(p, i, vendor, side)) == TreeBlocks(p) + multiset{side.block}
  {
    NoCellBlocks(side.cells);
    SetSideBlocks(p, i, vendor, side);
    Cancel(TreeBlocks(SetSide(p, i, vendor, side)), TreeBlocks(p), multiset{}, multiset{side.block});
  }

  lemma Rebalance(h: multiset<nat>, r: multiset<nat>, s: multiset<nat>, other: multiset<nat>,
                  was: multiset<nat>, now: multiset<nat>)
    ensures r + (other + was) == s + (other + now) ==> h + r + was == h + s + now
  {
    if r + (other + was) == s + (other + now) {
      forall x ensures (h + r + was)[x] == (h + s + now)[x] {
        assert (r + (other + was))[x] == (s + (other + now))[x];
      }
    }
  }

  lemma Telescope(r: multiset<nat>, t: multiset<nat>, b: multiset<nat>, c: multiset<nat>, d: multiset<nat>,
                  x: multiset<nat>, y: multiset<nat>)
    requires r + (b + c) == t + (b + d) && d + x == c + y
    ensures r + x == t + y
  {
    forall n ensures (r + x)[n] == (t + y)[n] {
      assert (r + (b + c))[n] == (t + (b + d))[n] && (d + x)[n] == (c + y)[n];
    }
  }

  /** Writing one cell changes the blocks of the tree by the blocks of that cell. */
  lemma SetCellBlocks(p: Ptr<Elem>, i: nat, vendor: bool, j: nat, m: Model)
    requires HasCell(p, i, vendor, j)
    ensures TreeBlocks(SetCell(p, i, vendor, j, m)) + ModelBlocks(Cell(p, i, vendor, j)) ==
            TreeBlocks(p) + ModelBlocks(m)
  {
    var side := Side(p.cells[i], vendor);
    var side' := side.(cells := side.cells[j := m]);
    CellBlocksUpdate(side.cells, j, m);
    SetSideBlocks(p, i, vendor, side');
    Telescope(TreeBlocks(SetCell(p, i, vendor, j, m)), TreeBlocks(p), multiset{side.block},
              CellBlocks(side.cells), CellBlocks(side'.cells), ModelBlocks(side.cells[j]), ModelBlocks(m));
  }

  /** Writing a whole element that owns nothing yet, over one that owns nothing. */
  lemma ReplaceBlankElement(p: Ptr<Elem>, i: nat, e: Elem)
    requires p.Ptr? && i < |p.cells|
    requires p.cells[i].sigs.Null? && p.cells[i].vnds.Null? && e.sigs.Null? && e.vnds.Null?
    ensures TreeBlocks(p.(cells := p.cells[i := e])) == TreeBlocks(p)
  {
    ElemsBlocksUpdate(p.cells, i, e);
    Cancel(ElemsBlocks(p.cells[i := e]), ElemsBlocks(p.cells), multiset{}, multiset{});
  }
}
