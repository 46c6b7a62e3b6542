/** `btmesh_discover_node` from the allocation of the elements on, and `btmesh_free_node`. Every
    failure exit frees what has been built so far, each block once, and leaves the element
    pointer NULL. `base` stands for the blocks that belong to someone else. */
module NodeDiscovery {
  import opened Util
  import opened Composition
  import opened Discovery

  class Discoverer {
    const heap: Heap
    const comp: Buffer
    const addr: Uint16
    /** The answer to the n-th query, `btmesh_perform_op` with its retries included. */
    const reply: (nat, Query) -> Reply
    ghost const truth: Truth
    var elems: Ptr<Elem>
    /** The element address left in the argument union. */
    var queryAddr: Uint16
    var asked: nat

    constructor (heap: Heap, comp: Buffer, addr: Uint16, reply: (nat, Query) -> Reply, stale: Uint16,
                 ghost truth: Truth)
      ensures this.heap == heap && this.comp == comp && this.addr == addr && this.reply == reply
      ensures this.truth == truth && elems == Null && queryAddr == stale
    {
      this.heap, this.comp, this.addr, this.reply, this.truth := heap, comp, addr, reply, truth;
      elems, queryAddr, asked := Null, stale, 0;
    }

    /** The live blocks are those of the tree and those of `base`, each exactly once. */
    ghost predicate Owns(base: multiset<nat>)
      reads this, heap
    {
      heap.Valid() && multiset(heap.live) == base + TreeBlocks(elems)
    }

    ghost predicate Released(base: multiset<nat>)
      reads this, heap
    {
      heap.Valid() && elems.Null? && multiset(heap.live) == base
    }

    /** The model was filled in, with what the node has if the answers are truthful. */
    ghost predicate Filled(m: Model, a: Uint16, id: ModelId) {
      m.id == id && m.appkeys.Ptr? && m.subs.Ptr? && (Truthful(reply, truth) ==> Describes(m, a, id, truth))
    }

    /** No allocation fails and every query is answered without an error. */
    ghost predicate Smooth() {
      (forall n: nat :: !heap.fails(n)) && (forall n: nat, q: Query :: reply(n, q).err == 0 && reply(n, q).status == 0)
    }

    /** A failure is one that happened: an allocation that failed, or a reply with this error and
        this status, not both zero. */
    ghost predicate Blamed(exit: Exit) {
      match exit
      case OpFailed(err, status) =>
        (err != 0 || status != 0) && exists n: nat, q: Query :: reply(n, q).err == err && reply(n, q).status == status
      case NoMemory => exists n: nat :: heap.fails(n)
      case _ => true
    }

    lemma NothingToBlame(exit: Exit)
      requires Smooth() && Blamed(exit)
      ensures !Gone(exit)
    {
    }

    // -------------------------------------------------------------- btmesh_free_node

    /** `k_free`: freeing NULL does nothing. */
    method FreePtr<T>(p: Ptr<T>, ghost base: multiset<nat>)
      requires heap.Valid() && multiset(heap.live) == base + Own(p)
      modifies heap
      ensures heap.Valid() && multiset(heap.live) == base
    {
      if p.Ptr? {
        assert p.block in multiset(heap.live);
        heap.Free(p.block);
        Cancel(multiset(heap.live), base, multiset{p.block}, multiset{});
      }
    }

    method FreeModels(p: Ptr<Model>, ghost base: multiset<nat>)
      requires heap.Valid() && multiset(heap.live) == base + ListBlocks(p)
      modifies heap
      ensures heap.Valid() && multiset(heap.live) == base
    {
      if p.Ptr? {
        ghost var rest := base + multiset{p.block};
        assert p.cells[0..] == p.cells;
        for j := 0 to |p.cells|
          invariant heap.Valid() && multiset(heap.live) == rest + CellBlocks(p.cells[j..])
        {
          var m := p.cells[j];
          ghost var after := rest + CellBlocks(p.cells[j + 1..]);
          assert p.cells[j..][1..] == p.cells[j + 1..];
          assert multiset(heap.live) == after + Own(m.subs) + Own(m.appkeys);
          FreePtr(m.appkeys, after + Own(m.subs));
          FreePtr(m.subs, after);
        }
        FreePtr(p, base);
      }
    }

    /** `btmesh_free_node`; calling it again does nothing. */
    method FreeNode(ghost base: multiset<nat>)
      requires Owns(base)
      modifies this`elems, heap
      ensures Released(base)
      ensures old(elems).Null? ==> heap.live == old(heap.live)
    {
      if elems.Ptr? {
        ghost var rest := base + multiset{elems.block};
        assert elems.cells[0..] == elems.cells;
        for i := 0 to |elems.cells|
          invariant elems == old(elems)
          invariant heap.Valid() && multiset(heap.live) == rest + ElemsBlocks(elems.cells[i..])
        {
          var e := elems.cells[i];
          ghost var after := rest + ElemsBlocks(elems.cells[i + 1..]);
          assert elems.cells[i..][1..] == elems.cells[i + 1..];
          assert multiset(heap.live) == after + ListBlocks(e.vnds) + ListBlocks(e.sigs);
          FreeModels(e.sigs, after + ListBlocks(e.vnds));
          FreeModels(e.vnds, after);
        }
        FreePtr(elems, base);
        elems := Null;
      }
    }

    // -------------------------------------------------------------- one model

    method Ask(q: Query) returns (r: Reply)
      modifies this`asked
      ensures r == reply(old(asked), q) && asked == old(asked) + 1
    {
      r := reply(asked, q);
      asked := asked + 1;
    }

    /** Writes a cell in place. */
    method Write(i: nat, vendor: bool, j: nat, m: Model)
      requires HasCell(elems, i, vendor, j)
      modifies this`elems
      ensures elems == SetCell(old(elems), i, vendor, j, m)
      ensures TreeBlocks(elems) + ModelBlocks(Cell(old(elems), i, vendor, j)) ==
              TreeBlocks(old(elems)) + ModelBlocks(m)
    {
      SetCellBlocks(elems, i, vendor, j, m);
      elems := SetCell(elems, i, vendor, j, m);
    }

    /** Hangs a block that was just allocated into a cell. */
    method Graft(i: nat, vendor: bool, j: nat, m: Model, block: nat, ghost base: multiset<nat>)
      requires heap.Valid() && multiset(heap.live) == base + TreeBlocks(elems) + multiset{block}
      requires HasCell(elems, i, vendor, j)
      requires ModelBlocks(m) == ModelBlocks(Cell(elems, i, vendor, j)) + multiset{block}
      modifies this`elems
      ensures Owns(base) && elems == SetCell(old(elems), i, vendor, j, m)
    {
      ghost var t, x := TreeBlocks(elems), ModelBlocks(Cell(elems, i, vendor, j));
      Write(i, vendor, j, m);
      Cancel(TreeBlocks(elems), t, x, multiset{block});
    }

    /** Allocates a list for a cell that has none, or frees the node. */
    method NewList(i: nat, vendor: bool, j: nat, forSubs: bool, list: seq<Uint16>, ghost base: multiset<nat>)
      returns (exit: Exit)
      requires Owns(base) && HasCell(elems, i, vendor, j)
      requires if forSubs then Cell(elems, i, vendor, j).subs.Null? else Cell(elems, i, vendor, j).appkeys.Null?
      modifies this`elems, heap
      ensures exit == Done || (Gone(exit) && Released(base) && Blamed(exit))
      ensures exit == Done ==>
        && Owns(base) && HasCell(elems, i, vendor, j)
        && elems == SetCell(old(elems), i, vendor, j, Cell(elems, i, vendor, j))
        && var m, was := Cell(elems, i, vendor, j), Cell(old(elems), i, vendor, j);
           if forSubs then m == was.(subs := m.subs) && m.subs.Ptr? && m.subs.cells == list
           else m == was.(appkeys := m.appkeys) && m.appkeys.Ptr? && m.appkeys.cells == list
    {
      hide TreeBlocks;
      hide ElemsBlocks;
      hide ListBlocks;
      var block := heap.Alloc();
      if block.None? {
        FreeNode(base);
        return NoMemory;
      }
      var m := Cell(elems, i, vendor, j);
      var p := Ptr(block.value, list);
      var m' := if forSubs then m.(subs := p) else m.(appkeys := p);
      SetCellTwice(elems, i, vendor, j, m', m');
      Graft(i, vendor, j, m', block.value, base);
      exit := Done;
    }

    /** Asks for the application keys or the subscriptions of the model in a cell. */
    method FillList(i: nat, vendor: bool, j: nat, forSubs: bool, id: ModelId, ghost base: multiset<nat>)
      returns (exit: Exit)
      requires Owns(base) && HasCell(elems, i, vendor, j)
      requires if forSubs then Cell(elems, i, vendor, j).subs.Null? else Cell(elems, i, vendor, j).appkeys.Null?
      modifies this`elems, this`asked, heap
      ensures exit == Done || (Gone(exit) && Released(base) && Blamed(exit))
      ensures exit == Done ==>
        && Owns(base) && HasCell(elems, i, vendor, j)
        && elems == SetCell(old(elems), i, vendor, j, Cell(elems, i, vendor, j))
        && var m, was := Cell(elems, i, vendor, j), Cell(old(elems), i, vendor, j);
           if forSubs then
             m == was.(subs := m.subs) && m.subs.Ptr? &&
             (Truthful(reply, truth) ==> m.subs.cells == truth.subs(queryAddr, id))
           else
             m == was.(appkeys := m.appkeys) && m.appkeys.Ptr? &&
             (Truthful(reply, truth) ==> m.appkeys.cells == truth.apps(queryAddr, id))
    {
      hide TreeBlocks;
      hide ElemsBlocks;
      hide ListBlocks;
      var r := Ask(if forSubs then Subs(queryAddr, id) else AppKeys(queryAddr, id));
      if !Good(r) {
        FreeNode(base);
        return OpFailed(r.err, r.status);
      }
      exit := NewList(i, vendor, j, forSubs, r.list, base);
    }

    /** Asks for the publish parameters, which live in the cell itself. */
    method FillPub(i: nat, vendor: bool, j: nat, id: ModelId, ghost base: multiset<nat>) returns (exit: Exit)
      requires Owns(base) && HasCell(elems, i, vendor, j)
      modifies this`elems, this`asked, heap
      ensures exit == Done || (Gone(exit) && Released(base) && Blamed(exit))
      ensures exit == Done ==>
        && Owns(base) && HasCell(elems, i, vendor, j)
        && elems == SetCell(old(elems), i, vendor, j, Cell(elems, i, vendor, j))
        && var m, was := Cell(elems, i, vendor, j), Cell(old(elems), i, vendor, j);
           m == was.(pub := m.pub) && (Truthful(reply, truth) ==> m.pub == Some(truth.pub(queryAddr, id)))
    {
      hide TreeBlocks;
      hide ElemsBlocks;
      hide ListBlocks;
      var r := Ask(Pub(queryAddr, id));
      if !Good(r) {
        FreeNode(base);
        return OpFailed(r.err, r.status);
      }
      var m := Cell(elems, i, vendor, j).(pub := Some(r.pub));
      SetCellTwice(elems, i, vendor, j, m, m);
      ghost var t, x := TreeBlocks(elems), ModelBlocks(m);
      Write(i, vendor, j, m);
      Cancel(TreeBlocks(elems), t, x, multiset{});
      exit := Done;
    }

    /** One turn of the loop over the models of an element. Only the SIG loop sets the element
        address of the queries. */
    method FillModel(i: nat, vendor: bool, j: nat, id: ModelId, ghost base: multiset<nat>) returns (exit: Exit)
      requires Owns(base) && HasCell(elems, i, vendor, j) && id.Vnd? == vendor
      requires Blank(Cell(elems, i, vendor, j))
      modifies this, heap
      ensures exit == Done || (Gone(exit) && Released(base) && Blamed(exit))
      ensures queryAddr == if vendor then old(queryAddr) else ElemAddr(addr, i)
      ensures exit == Done ==>
        && Owns(base) && HasCell(elems, i, vendor, j)
        && elems == SetCell(old(elems), i, vendor, j, Cell(elems, i, vendor, j))
        && Filled(Cell(elems, i, vendor, j), queryAddr, id)
    {
      hide TreeBlocks;
      hide ElemsBlocks;
      hide ListBlocks;
      ghost var p := elems;
      WriteId(i, vendor, j, id, base);
      if !vendor {
        queryAddr := ElemAddr(addr, i);
      }
      ghost var m0 := Cell(elems, i, vendor, j);
      exit := FillList(i, vendor, j, false, id, base);
      if exit != Done {
        return;
      }
      ghost var m1 := Cell(elems, i, vendor, j);
      SetCellTwice(p, i, vendor, j, m0, m1);
      exit := FillList(i, vendor, j, true, id, base);
      if exit != Done {
        return;
      }
      ghost var m2 := Cell(elems, i, vendor, j);
      SetCellTwice(p, i, vendor, j, m1, m2);
      if HasPub(id) {
        exit := FillPub(i, vendor, j, id, base);
        if exit != Done {
          return;
        }
        SetCellTwice(p, i, vendor, j, m2, Cell(elems, i, vendor, j));
      }
    }

    method WriteId(i: nat, vendor: bool, j: nat, id: ModelId, ghost base: multiset<nat>)
      requires Owns(base) && HasCell(elems, i, vendor, j)
      modifies this`elems
      ensures Owns(base) && HasCell(elems, i, vendor, j)
      ensures Cell(elems, i, vendor, j) == Cell(old(elems), i, vendor, j).(id := id)
      ensures elems == SetCell(old(elems), i, vendor, j, Cell(elems, i, vendor, j))
    {
      hide TreeBlocks;
      hide ElemsBlocks;
      hide ListBlocks;
      var m := Cell(elems, i, vendor, j).(id := id);
      SetCellTwice(elems, i, vendor, j, m, m);
      ghost var t, x := TreeBlocks(elems), ModelBlocks(m);
      Write(i, vendor, j, m);
      Cancel(TreeBlocks(elems), t, x, multiset{});
    }

    // -------------------------------------------------------------- the loops

    predicate Blank(m: Model) {
      m.appkeys.Null? && m.subs.Null? && m.pub.None?
    }

    /** Allocates the model array of one kind and initialises its pointers. */
    method NewModels(i: nat, vendor: bool, count: nat, ghost base: multiset<nat>) returns (exit: Exit)
      requires Owns(base) && elems.Ptr? && i < |elems.cells| && Side(elems.cells[i], vendor).Null?
      modifies this`elems, heap
      ensures exit == Done || (Gone(exit) && Released(base) && Blamed(exit))
      ensures exit == Done ==>
        && Owns(base) && elems.Ptr? && |elems.cells| == |old(elems).cells|
        && var side := Side(elems.cells[i], vendor);
           && elems == SetSide(old(elems), i, vendor, side)
           && side.Ptr? && |side.cells| == count && (forall j | 0 <= j < count :: Blank(side.cells[j]))
    {
      hide TreeBlocks;
      hide ElemsBlocks;
      hide ListBlocks;
      var block := heap.Alloc();
      if block.None? {
        FreeNode(base);
        return NoMemory;
      }
      var side := Ptr(block.value, seq(count, _ => Model(Sig(0), Null, Null, None)));
      GraftSide(i, vendor, side, base);
      exit := Done;
    }

    method GraftSide(i: nat, vendor: bool, side: Ptr<Model>, ghost base: multiset<nat>)
      requires elems.Ptr? && i < |elems.cells| && Side(elems.cells[i], vendor).Null?
      requires side.Ptr? && forall j | 0 <= j < |side.cells| :: Blank(side.cells[j])
      requires heap.Valid() && multiset(heap.live) == base + TreeBlocks(elems) + multiset{side.block}
      modifies this`elems
      ensures Owns(base) && elems == SetSide(old(elems), i, vendor, side)
    {
      hide TreeBlocks;
      NewSideBlocks(elems, i, vendor, side);
      elems := SetSide(elems, i, vendor, side);
    }

    ghost predicate FilledTo(side: Ptr<Model>, a: Uint16, ids: seq<ModelId>, n: nat)
      requires n <= |ids|
    {
      && side.Ptr? && |side.cells| == |ids|
      && (forall k | 0 <= k < n :: Filled(side.cells[k], a, ids[k]))
      && (forall k | n <= k < |ids| :: Blank(side.cells[k]))
    }

    /** The loop over the models of one kind on element `i`. */
    method FillModels(i: nat, vendor: bool, count: Byte, ghost ids: seq<ModelId>, ghost tail: seq<Byte>,
                      ghost base: multiset<nat>)
      returns (exit: Exit)
      requires Owns(base) && elems.Ptr? && i < |elems.cells| && count == |ids|
      requires forall k | 0 <= k < |ids| :: ids[k].Vnd? == vendor
      requires FilledTo(Side(elems.cells[i], vendor), queryAddr, ids, 0)
      requires comp.All() == EncodeIds(ids) + tail
      modifies this, heap, comp
      ensures Gone(exit) ==> Released(base) && Blamed(exit)
      ensures exit == Overrun ==> |comp.lost| > |tail|
      ensures exit == Done ==>
        && queryAddr == (if vendor || ids == [] then old(queryAddr) else ElemAddr(addr, i))
        && comp.All() == tail
        && Owns(base) && elems.Ptr? && |elems.cells| == |old(elems).cells|
        && elems == SetSide(old(elems), i, vendor, Side(elems.cells[i], vendor))
        && FilledTo(Side(elems.cells[i], vendor), queryAddr, ids, |ids|)
    {
      hide TreeBlocks;
      hide ElemsBlocks;
      hide ListBlocks;
      ghost var p := elems;
      ghost var side := Side(elems.cells[i], vendor);
      SideIsThere(p, i, vendor);
      assert ids[0..] == ids;
      var j := 0;
      while j < count
        invariant 0 <= j <= count
        invariant queryAddr == if vendor || j == 0 then old(queryAddr) else ElemAddr(addr, i)
        invariant comp.All() == EncodeIds(ids[j..]) + tail
        invariant Owns(base) && elems == SetSide(p, i, vendor, side)
        invariant FilledTo(side, queryAddr, ids, j)
      {
        exit, side := NextModel(i, vendor, j, ids, tail, base, p, side);
        if exit != Done {
          return;
        }
        j := j + 1;
      }
      SetSideReads(p, i, vendor, side);
      assert EncodeIds(ids[j..]) + tail == tail;
      exit := Done;
    }

    method NextModel(i: nat, vendor: bool, j: nat, ghost ids: seq<ModelId>, ghost tail: seq<Byte>,
                     ghost base: multiset<nat>, ghost p: Ptr<Elem>, ghost side: Ptr<Model>)
      returns (exit: Exit, ghost side': Ptr<Model>)
      requires j < |ids| && ids[j].Vnd? == vendor
      requires p.Ptr? && i < |p.cells| && (vendor || j == 0 || queryAddr == ElemAddr(addr, i))
      requires Owns(base) && elems == SetSide(p, i, vendor, side) && FilledTo(side, queryAddr, ids, j)
      requires comp.All() == EncodeIds(ids[j..]) + tail
      modifies this, heap, comp
      ensures Gone(exit) ==> Released(base) && Blamed(exit)
      ensures exit == Overrun ==> |comp.lost| > |tail|
      ensures exit == Done ==>
        && queryAddr == (if vendor then old(queryAddr) else ElemAddr(addr, i))
        && comp.All() == EncodeIds(ids[j + 1..]) + tail
        && Owns(base) && elems == SetSide(p, i, vendor, side') && FilledTo(side', queryAddr, ids, j + 1)
    {
      hide TreeBlocks;
      hide ElemsBlocks;
      hide ListBlocks;
      assert ids[j..][1..] == ids[j + 1..];
      var ok, id := comp.PullId(vendor, ids[j..], tail);
      if !ok {
        return Overrun, side;
      }
      SetSideThenCell(p, i, vendor, side, j, side.cells[j]);
      exit := FillModel(i, vendor, j, id, base);
      side' := side;
      if exit == Done {
        ghost var m := Cell(elems, i, vendor, j);
        SetSideThenCell(p, i, vendor, side, j, m);
        side' := side.(cells := side.cells[j := m]);
      }
    }

    /** Element `i` has been built to the end. */
    ghost predicate Built(e: Elem, es: seq<Element>, stale: Uint16, i: nat)
      requires i < |es|
    {
      && e.addr == ElemAddr(addr, i) && e.loc == es[i].loc
      && FilledTo(e.sigs, ElemAddr(addr, i), es[i].sig, |es[i].sig|)
      && FilledTo(e.vnds, VendorAddr(es, addr, stale, i), es[i].vnd, |es[i].vnd|)
    }

    /** What the union's element address is before element `i` is read. */
    ghost function AddrBefore(es: seq<Element>, stale: Uint16, i: nat): Uint16
      requires i <= |es|
    {
      if i == 0 then stale else VendorAddr(es, addr, stale, i - 1)
    }

    ghost predicate BlankElem(e: Elem) {
      e.sigs.Null? && e.vnds.Null?
    }

    /** The part of the element loop before the model loops. */
    method OpenElement(i: nat, ghost e: Element, ghost tail: seq<Byte>, ghost base: multiset<nat>)
      returns (exit: Exit, sigCount: Byte, vndCount: Byte)
      requires Owns(base) && elems.Ptr? && i < |elems.cells| && BlankElem(elems.cells[i])
      requires Encodable(e) && comp.All() == EncodeElement(e) + tail
      modifies this`elems, heap, comp
      ensures Gone(exit) ==> Released(base) && Blamed(exit)
      ensures exit == Overrun ==> |comp.lost| > |tail|
      ensures exit == Done ==>
        && sigCount == |e.sig| && vndCount == |e.vnd|
        && comp.All() == EncodeIds(e.sig) + (EncodeIds(e.vnd) + tail)
        && Owns(base) && elems.Ptr? && |elems.cells| == |old(elems).cells|
        && elems.cells == old(elems).cells[i := elems.cells[i]]
        && elems.cells[i].addr == ElemAddr(addr, i) && elems.cells[i].loc == e.loc
        && FilledTo(elems.cells[i].sigs, 0, e.sig, 0) && FilledTo(elems.cells[i].vnds, 0, e.vnd, 0)
    {
      hide TreeBlocks;
      hide ElemsBlocks;
      hide ListBlocks;
      var ok, loc;
      ok, loc, sigCount, vndCount := comp.PullCounts(e, tail);
      if !ok {
        return Overrun, 0, 0;
      }
      var cell := Elem(ElemAddr(addr, i), loc, Null, Null);
      ReplaceBlankElement(elems, i, cell);
      elems := elems.(cells := elems.cells[i := cell]);
      exit := NewModels(i, false, sigCount, base);
      if exit != Done {
        return;
      }
      exit := NewModels(i, true, vndCount, base);
    }

    /** One turn of the loop over elements. */
    method FillElement(i: nat, ghost es: seq<Element>, ghost stale: Uint16, ghost tail: seq<Byte>,
                       ghost base: multiset<nat>)
      returns (exit: Exit)
      requires Owns(base) && elems.Ptr? && i < |elems.cells| && BlankElem(elems.cells[i])
      requires i < |es| && Encodable(es[i]) && comp.All() == EncodeElement(es[i]) + tail
      requires queryAddr == AddrBefore(es, stale, i)
      modifies this, heap, comp
      ensures Gone(exit) ==> Released(base) && Blamed(exit)
      ensures exit == Overrun ==> |comp.lost| > |tail|
      ensures exit == Done ==>
        && Owns(base) && elems.Ptr? && |elems.cells| == |old(elems).cells|
        && elems.cells == old(elems).cells[i := elems.cells[i]]
        && Built(elems.cells[i], es, stale, i)
        && queryAddr == AddrBefore(es, stale, i + 1) && comp.All() == tail
    {
      hide TreeBlocks;
      hide ElemsBlocks;
      hide ListBlocks;
      ghost var e := es[i];
      var sigCount, vndCount;
      exit, sigCount, vndCount := OpenElement(i, e, tail, base);
      if exit != Done {
        return;
      }
      exit := FillModels(i, false, sigCount, e.sig, EncodeIds(e.vnd) + tail, base);
      if exit != Done {
        return;
      }
      exit := FillModels(i, true, vndCount, e.vnd, tail, base);
    }

    /** Allocates the elements and initialises all their pointers. */
    method NewElements(count: nat, ghost base: multiset<nat>) returns (exit: Exit)
      requires Released(base)
      modifies this`elems, heap
      ensures exit == Done || (Gone(exit) && Released(base) && Blamed(exit))
      ensures exit == Done ==>
        && Owns(base) && elems.Ptr? && |elems.cells| == count
        && forall i | 0 <= i < count :: BlankElem(elems.cells[i])
    {
      var block := heap.Alloc();
      if block.None? {
        return NoMemory;
      }
      var cells := seq(count, _ => Elem(0, 0, Null, Null));
      NoElemBlocks(cells);
      elems := Ptr(block.value, cells);
      exit := Done;
    }

    /** The element part of `btmesh_discover_node`, from any well-formed element list: on success
        the tree has exactly those elements and owns every block allocated on the way; on any
        failure nothing is left allocated and nothing is left to free. If nothing fails, the walk
        succeeds exactly when the buffer holds all the elements, and runs over its end otherwise. */
    method Discover(count: nat, ghost es: seq<Element>, ghost tail: seq<Byte>, ghost base: multiset<nat>)
      returns (exit: Exit)
      requires heap.Valid() && multiset(heap.live) == base && elems.Null?
      requires count == |es| && AllEncodable(es) && comp.All() == EncodeElements(es) + tail
      modifies this, heap, comp
      ensures Gone(exit) ==> Released(base) && Blamed(exit)
      ensures exit == Overrun ==> old(|comp.rest|) < |EncodeElements(es)|
      ensures exit == Done ==>
        && Owns(base) && elems.Ptr? && |elems.cells| == |es| && comp.All() == tail
        && old(|comp.rest|) >= |EncodeElements(es)|
        && (forall i | 0 <= i < |es| :: Built(elems.cells[i], es, old(queryAddr), i))
        && (forall i | 0 <= i < |es| :: elems.cells[i].addr == (addr as int + i) % 0x1_0000)
    {
      hide TreeBlocks;
      hide EncodeElements;
      hide EncodeElement;
      hide VendorAddr;
      ghost var stale := queryAddr;
      exit := NewElements(count, base);
      if exit != Done {
        return;
      }
      assert es[0..] == es;
      for i := 0 to count
        invariant Owns(base) && elems.Ptr? && |elems.cells| == count
        invariant queryAddr == AddrBefore(es, stale, i)
        invariant comp.All() == EncodeElements(es[i..]) + tail
        invariant forall k | 0 <= k < i :: Built(elems.cells[k], es, stale, k)
        invariant forall k | i <= k < count :: BlankElem(elems.cells[k])
      {
        EncodeFrom(es, i, tail);
        exit := FillElement(i, es, stale, EncodeElements(es[i + 1..]) + tail, base);
        if exit != Done {
          return;
        }
      }
      EncodeFrom(es, count, tail);
      exit := Done;
    }

    /** Discovery and then `btmesh_free_node`: whatever happened short of a crash, the heap is as
        before. `count` elements of the composition data are read from the 64-byte buffer it was
        received in, of which the ten bytes of the header have been read. */
    method DiscoverAndFree(count: nat, ghost es: seq<Element>, ghost tail: seq<Byte>) returns (exit: Exit)
      requires heap.Valid() && elems.Null?
      requires count == |es| && AllEncodable(es) && comp.All() == EncodeElements(es) + tail
      requires |comp.rest| == if comp.lost == [] then |comp.All()| else COMP_DATA_BUF_SIZE - HEADER_LEN
      requires |comp.rest| <= COMP_DATA_BUF_SIZE - HEADER_LEN
      modifies this, heap, comp
      ensures exit != Overrun ==> heap.Valid() && elems.Null? && heap.live == old(heap.live)
      ensures var fits := |EncodeElements(es)| <= 54;
        && (exit == Overrun ==> !fits) && (exit == Done ==> fits)
        && (Smooth() ==> exit == if fits then Done else Overrun)
    {
      ghost var base := multiset(heap.live);
      exit := Discover(count, es, tail, base);
      if Smooth() {
        NothingToBlame(exit);
      }
      if exit == Overrun {
        return;
      }
      FreeNode(base);
      SameSet(heap.live, old(heap.live));
    }

    lemma SameSet(a: set<nat>, b: set<nat>)
      requires multiset(a) == multiset(b)
      ensures a == b
    {
      forall x: nat ensures x in a <==> x in b {
        assert x in multiset(a) <==> x in a;
        assert x in multiset(b) <==> x in b;
      }
    }
  }
}
