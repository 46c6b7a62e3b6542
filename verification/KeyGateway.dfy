/** The loops of `btmesh_perform_op` and `btmesh_clean_node_key` and the bind and unbind branches
    of `cmd_handler`, each proved to compute what `KeyLifecycle` defines. */
module KeyGateway {
  import opened Util
  import opened Composition
  import opened KeyLifecycle

  // ---------------------------------------------------------------- what is left to ask

  lemma FittingHead(elem: Uint16, ids: seq<ModelId>, room: nat, later: seq<ModelRef>)
    requires ids != []
    ensures var size := |EncodeId(ids[0])|;
      Fitting(elem, ids, room) + later ==
      if size > room then later
      else [ModelRef(elem, ids[0])] + (Fitting(elem, ids[1..], room - size) + later)
  {
  }

  lemma FittingNone(elem: Uint16, room: nat, later: seq<ModelRef>)
    ensures Fitting(elem, [], room) + later == later
  {
  }

  lemma NothingToAsk(env: Env, w: World, app: Uint16)
    ensures Scan(env, w, [], app) == (w, Unused)
  {
  }

  /** What comes after an element's SIG models, and after its vendor models, if the bytes last. */
  function AfterSig(env: Env, i: nat, room: nat): seq<ModelRef>
    requires i < |env.elems|
  {
    var e := env.elems[i];
    var sig := |EncodeIds(e.sig)|;
    if sig > room then []
    else Fitting(ElemAddr(env.addr, i), e.vnd, room - sig) + AfterVnd(env, i, room - sig)
  }

  function AfterVnd(env: Env, i: nat, room: nat): seq<ModelRef>
    requires i < |env.elems|
  {
    var vnd := |EncodeIds(env.elems[i].vnd)|;
    if vnd > room then [] else VisibleFrom(env, i + 1, room - vnd)
  }

  lemma VisibleAt(env: Env, i: nat, room: nat)
    requires i < |env.elems|
    ensures VisibleFrom(env, i, room) ==
            if room < 4 then []
            else Fitting(ElemAddr(env.addr, i), env.elems[i].sig, room - 4) + AfterSig(env, i, room - 4)
  {
  }

  lemma AfterSigIs(env: Env, i: nat, room: nat)
    requires i < |env.elems|
    ensures var e := env.elems[i];
      var sig := |EncodeIds(e.sig)|;
      AfterSig(env, i, room) ==
      if sig > room then []
      else Fitting(ElemAddr(env.addr, i), e.vnd, room - sig) + AfterVnd(env, i, room - sig)
  {
    hide Fitting;
    hide EncodeIds;
    hide AfterVnd;
  }

  lemma AfterVndIs(env: Env, i: nat, room: nat)
    requires i < |env.elems|
    ensures var vnd := |EncodeIds(env.elems[i].vnd)|;
      AfterVnd(env, i, room) == if vnd > room then [] else VisibleFrom(env, i + 1, room - vnd)
  {
  }

  /** A buffer filled as far as the data goes shows the visible models. */
  lemma RoomIsEnough(env: Env, room: nat)
    requires room == if Cut(env) then COMP_DATA_BUF_SIZE - HEADER_LEN else SizeFrom(env, 0)
    ensures VisibleFrom(env, 0, room) == Visible(env)
  {
    VisibleIsPrefix(env, 0, room);
    WholeIsVisible(env);
  }

  class Gateway {
    const env: Env
    /** The remote node and the number of attempts made so far: the world the requests act on. */
    var node: Node
    var time: nat

    ghost predicate WellFormed() {
      |env.header| == HEADER_LEN && AllEncodable(env.elems)
    }

    ghost function World(): World
      reads this
    {
      KeyLifecycle.World(node, time)
    }

    constructor (env: Env, node: Node)
      ensures this.env == env && World() == KeyLifecycle.World(node, 0)
    {
      this.env, this.node, this.time := env, node, 0;
    }

    method PerformOp(r: Request) returns (reply: Reply)
      modifies this
      ensures (World(), reply) == Op(env, old(World()), r)
    {
      reply := NoReply;
      for i := 0 to RETRY_COUNT
        invariant i < RETRY_COUNT ==> Perform(env, World(), r, RETRY_COUNT - i) == Op(env, old(World()), r)
        invariant i == RETRY_COUNT ==> (World(), reply) == Op(env, old(World()), r)
      {
        var a := Attempt(node, r, env.fate(time));
        node, time, reply := a.0, time + 1, a.1;
        if reply.Got? {
          return;
        }
      }
    }

    /** The innermost loop: stops at the key, or at the end of the list. */
    method FindKey(apps: seq<Uint16>, app: Uint16) returns (k: nat)
      ensures k <= |apps|
      ensures k != |apps| <==> app in apps
    {
      k := 0;
      while k < |apps|
        invariant k <= |apps| && app !in apps[..k]
      {
        if apps[k] == app {
          break;
        }
        k := k + 1;
      }
      assert apps[..|apps|] == apps;
    }

    /** One model query and the search of its answer. */
    method AskModel(m: ModelRef, app: Uint16, ghost next: seq<ModelRef>) returns (used: bool, failed: bool)
      modifies this
      ensures Scan(env, old(World()), [m] + next, app) ==
              if failed then (World(), QueryFailed)
              else if used then (World(), InUse)
              else Scan(env, World(), next, app)
    {
      assert ([m] + next)[1..] == next;
      var reply := PerformOp(ModelGet(m));
      if reply.NoReply? {
        return false, true;
      }
      var k := FindKey(reply.list, app);
      return k != |reply.list|, false;
    }

    /** The loop over the models of one kind on one element. It ends early, at some `j` short of
        the count, at the first model that uses the key, and crashes where the bytes run out.
        `later` is what comes after, if the bytes last so far. */
    method AskModels(comp: Buffer, elem: Uint16, vendor: bool, count: Byte, app: Uint16,
                     ghost ids: seq<ModelId>, ghost tail: seq<Byte>, ghost later: seq<ModelRef>)
      returns (j: nat, failed: bool, crash: bool)
      requires count == |ids| && (forall i | 0 <= i < |ids| :: ids[i].Vnd? == vendor)
      requires comp.All() == EncodeIds(ids) + tail && (|comp.lost| > |tail| ==> later == [])
      modifies this, comp
      ensures var all := Scan(env, old(World()), Fitting(elem, ids, old(|comp.rest|)) + later, app);
        if failed then all == (World(), QueryFailed)
        else if crash then all == (World(), Unused) && |comp.lost| > |tail|
        else if j != count then all == (World(), InUse)
        else all == Scan(env, World(), later, app) && comp.All() == tail
    {
      hide Scan;
      hide Fitting;
      ghost var all := Scan(env, World(), Fitting(elem, ids, |comp.rest|) + later, app);
      j, failed, crash := 0, false, false;
      assert ids[0..] == ids;
      while j < count
        invariant 0 <= j <= count && !failed && !crash
        invariant all == Scan(env, World(), Fitting(elem, ids[j..], |comp.rest|) + later, app)
        invariant comp.All() == EncodeIds(ids[j..]) + tail
      {
        assert ids[j..][1..] == ids[j + 1..];
        FittingHead(elem, ids[j..], |comp.rest|, later);
        var m;
        crash, m := comp.PullId(vendor, ids[j..], tail);
        crash := !crash;
        if crash {
          NothingToAsk(env, World(), app);
          return;
        }
        var used;
        used, failed := AskModel(ModelRef(elem, m), app, Fitting(elem, ids[j + 1..], |comp.rest|) + later);
        if failed || used {
          return;
        }
        j := j + 1;
      }
      FittingNone(elem, |comp.rest|, later);
      assert EncodeIds(ids[j..]) + tail == tail;
    }

    /** One turn of the loop over elements. */
    method AskElement(comp: Buffer, i: nat, app: Uint16, ghost tail: seq<Byte>)
      returns (used: bool, failed: bool, crash: bool)
      requires WellFormed() && i < |env.elems| && comp.All() == EncodeElement(env.elems[i]) + tail
      modifies this, comp
      ensures var all := Scan(env, old(World()), VisibleFrom(env, i, old(|comp.rest|)), app);
        if failed then all == (World(), QueryFailed)
        else if crash then all == (World(), Unused) && |comp.lost| > |tail|
        else if used then all == (World(), InUse)
        else all == Scan(env, World(), VisibleFrom(env, i + 1, |comp.rest|), app) && comp.All() == tail
    {
      hide Scan;
      hide EncodeIds;
      ghost var e := env.elems[i];
      assert |EncodeElement(e)| == ElementSize(e);
      hide EncodeElement;
      hide Fitting;
      var elem := ElemAddr(env.addr, i);
      VisibleAt(env, i, |comp.rest|);
      ghost var size := |comp.rest|;
      var ok, loc, sigCount, vndCount := comp.PullCounts(e, tail);
      if !ok {
        NothingToAsk(env, World(), app);
        return false, false, true;
      }
      hide VisibleFrom;
      ghost var left := |comp.rest|;
      AfterSigIs(env, i, left);
      hide AfterSig;
      var j;
      j, failed, crash := AskModels(comp, elem, false, sigCount, app, e.sig, EncodeIds(e.vnd) + tail,
                                    AfterSig(env, i, left));
      used := j != sigCount;
      if failed || crash || used {
        return;
      }
      left := |comp.rest|;
      AfterVndIs(env, i, left);
      hide AfterVnd;
      j, failed, crash := AskModels(comp, elem, true, vndCount, app, e.vnd, tail, AfterVnd(env, i, left));
      used := j != vndCount;
    }

    /** The loops over elements and models. */
    method AskElements(comp: Buffer, app: Uint16) returns (i: nat, failed: bool, crash: bool)
      requires WellFormed() && comp.All() == EncodeElements(env.elems)
      modifies this, comp
      ensures Scan(env, old(World()), VisibleFrom(env, 0, old(|comp.rest|)), app) ==
              (World(), if failed then QueryFailed else if !crash && i != |env.elems| then InUse else Unused)
      ensures !failed && crash ==> comp.lost != []
      ensures !failed && !crash && i == |env.elems| ==> comp.lost == []
    {
      hide Scan;
      hide EncodeElements;
      ghost var all := Scan(env, World(), VisibleFrom(env, 0, |comp.rest|), app);
      i, failed, crash := 0, false, false;
      assert env.elems[0..] == env.elems;
      while i < |env.elems|
        invariant 0 <= i <= |env.elems| && !failed && !crash
        invariant all == Scan(env, World(), VisibleFrom(env, i, |comp.rest|), app)
        invariant comp.All() == EncodeElements(env.elems[i..])
      {
        hide VisibleFrom;
        ElementFirst(env.elems, i);
        var used;
        used, failed, crash := AskElement(comp, i, app, EncodeElements(env.elems[i + 1..]));
        if failed || crash {
          return;
        }
        if used {
          break;
        }
        i := i + 1;
      }
      if i == |env.elems| {
        ElementFirst(env.elems, i);
        NothingToAsk(env, World(), app);
      }
    }

    /** The composition data in the buffer, with the header pulled. */
    method Received() returns (comp: Buffer)
      requires WellFormed()
      ensures fresh(comp) && comp.All() == EncodeElements(env.elems)
      ensures comp.lost == [] <==> !Cut(env)
      ensures VisibleFrom(env, 0, |comp.rest|) == Visible(env)
    {
      hide VisibleFrom;
      hide SizeFrom;
      hide EncodeElements;
      comp := new Buffer(env.header + EncodeElements(env.elems), COMP_DATA_BUF_SIZE);
      SizeIs(env, 0);
      assert env.elems[0..] == env.elems;
      assert comp.All()[HEADER_LEN..] == EncodeElements(env.elems);
      comp.PullMem(HEADER_LEN);
      RoomIsEnough(env, |comp.rest|);
    }

    /** `btmesh_clean_node_key` */
    method CleanNodeKey(app: Uint16) returns (outcome: Outcome)
      requires WellFormed()
      modifies this
      ensures (World(), outcome) == Clean(env, old(World()), app)
    {
      hide Scan;
      hide Op;
      hide Cut;
      hide Visible;
      hide VisibleFrom;
      var reply := PerformOp(CompGet);
      if reply.NoReply? {
        return Failed;
      }
      var comp := Received();
      var i, failed, crash := AskElements(comp, app);
      if failed {
        return Failed;
      }
      if crash {
        return Overrun;
      }
      if i != |env.elems| {
        return Done;
      }
      if app !in env.cdb {
        return NullKey;
      }
      reply := PerformOp(KeyDel(AppKey(app, env.cdb[app])));
      return if reply.NoReply? then Failed else Done;
    }

    /** The bind branch of `cmd_handler` */
    method BindKey(m: ModelRef, app: Uint16) returns (outcome: Outcome)
      modifies this
      ensures (World(), outcome) == BindModel(env, old(World()), m, app)
    {
      if app !in env.cdb {
        return NoSuchKey;
      }
      var net := env.cdb[app];
      var reply := PerformOp(KeyGet(net));
      if !Fine(reply) {
        return Failed;
      }
      var i := FindKey(reply.list, app);
      if i >= |reply.list| {
        reply := PerformOp(KeyAdd(AppKey(app, net)));
        if !Fine(reply) {
          return Failed;
        }
      }
      reply := PerformOp(Bind(m, app));
      return if Fine(reply) then Done else Failed;
    }

    /** The unbind branch of `cmd_handler`, with its collection of the key. */
    method UnbindKey(m: ModelRef, app: Uint16) returns (outcome: Outcome)
      requires WellFormed()
      modifies this
      ensures (World(), outcome) == UnbindModel(env, old(World()), m, app)
    {
      var reply := PerformOp(Unbind(m, app));
      if !Fine(reply) {
        return Failed;
      }
      outcome := CleanNodeKey(app);
    }
  }
}
