/** The life of an application key on a remote node: the gateway looks for it, adds it, binds it,
    later unbinds it and collects it when no model is left that uses it. Every request goes over
    a lossy link with up to three attempts.

    The remote node is as permissive as it can be: it binds keys it does not store and deletes
    keys that are still bound. What is safe is safe by the gateway's doing. */
module KeyLifecycle {
  import opened Util
  import opened Composition

  datatype ModelRef = ModelRef(elem: Uint16, id: ModelId)

  datatype AppKey = AppKey(app: Uint16, net: Uint16)

  datatype Node = Node(keys: seq<AppKey>, bound: map<ModelRef, seq<Uint16>>)

  datatype Request =
    | CompGet
    | KeyGet(net: Uint16)
    | KeyAdd(key: AppKey)
    | KeyDel(key: AppKey)
    | Bind(model: ModelRef, app: Uint16)
    | Unbind(model: ModelRef, app: Uint16)
    | ModelGet(model: ModelRef)

  /** What happens to one attempt: the request or its answer gets lost, the node answers, or it
      refuses with a non-zero status. `Blank` is a refused model query, answered with no keys. */
  datatype Fate = Lost | AckLost | Answered | Refused(status: nat) | Blank(status: nat)

  datatype Reply = NoReply | Got(status: nat, list: seq<Uint16>)

  /** What does not change during a run: the node's composition, the gateway's configuration
      database of application keys, and the fate of the t-th attempt. */
  datatype Env = Env(header: seq<Byte>, elems: seq<Element>, addr: Uint16,
                     cdb: map<Uint16, Uint16>, fate: nat -> Fate)

  datatype World = World(node: Node, time: nat)

  /** `NullKey` and `Overrun` are crashes: the first reads through a null pointer, the second pulls
      more bytes than the buffer holds, which an assertion catches. */
  datatype Outcome = Done | NoSuchKey | Failed | NullKey | Overrun

  const RETRY_COUNT := 3
  const INVALID_MODEL := 2

  // ---------------------------------------------------------------- the remote node

  function AddTo<T(==)>(s: seq<T>, x: T): seq<T> {
    if x in s then s else s + [x]
  }

  function Without<T(==, !new)>(s: seq<T>, x: T): (r: seq<T>)
    ensures forall y :: y in r <==> y in s && y != x
    ensures x !in s ==> r == s
  {
    if s == [] then []
    else
      assert s == [s[0]] + s[1..];
      (if s[0] == x then [] else [s[0]]) + Without(s[1..], x)
  }

  predicate Stored(n: Node, app: Uint16) {
    exists i | 0 <= i < |n.keys| :: n.keys[i].app == app
  }

  function Bound(n: Node, m: ModelRef): seq<Uint16> {
    if m in n.bound then n.bound[m] else []
  }

  /** The application keys the node stores under one network key. */
  function AppsUnder(keys: seq<AppKey>, net: Uint16): (apps: seq<Uint16>)
    ensures forall a :: a in apps <==> AppKey(a, net) in keys
  {
    if keys == [] then []
    else
      assert keys == [keys[0]] + keys[1..];
      (if keys[0].net == net then [keys[0].app] else []) + AppsUnder(keys[1..], net)
  }

  function Apply(n: Node, r: Request): Node {
    match r
    case KeyAdd(key) => if Stored(n, key.app) then n else n.(keys := n.keys + [key])
    case KeyDel(key) => n.(keys := Without(n.keys, key))
    case Bind(m, app) => if m in n.bound then n.(bound := n.bound[m := AddTo(n.bound[m], app)]) else n
    case Unbind(m, app) => if m in n.bound then n.(bound := n.bound[m := Without(n.bound[m], app)]) else n
    case CompGet | KeyGet(_) | ModelGet(_) => n
  }

  function Answer(n: Node, r: Request): Reply {
    match r
    case KeyGet(net) => Got(0, AppsUnder(n.keys, net))
    case ModelGet(m) => if m in n.bound then Got(0, n.bound[m]) else Got(INVALID_MODEL, [])
    case Bind(m, _) => Got(if m in n.bound then 0 else INVALID_MODEL, [])
    case Unbind(m, _) => Got(if m in n.bound then 0 else INVALID_MODEL, [])
    case CompGet | KeyAdd(_) | KeyDel(_) => Got(0, [])
  }

  /** One attempt. Composition data is never refused; model queries are refused only by `Blank`. */
  function Attempt(n: Node, r: Request, f: Fate): (Node, Reply) {
    match f
    case Lost => (n, NoReply)
    case AckLost => (Apply(n, r), NoReply)
    case Answered => (Apply(n, r), Answer(n, r))
    case Refused(status) =>
      if r.CompGet? || r.ModelGet? || status == 0 then (Apply(n, r), Answer(n, r)) else (n, Got(status, []))
    case Blank(status) =>
      if r.ModelGet? && status > 0 then (n, Got(status, [])) else (Apply(n, r), Answer(n, r))
  }

  // ---------------------------------------------------------------- the gateway

  /** `btmesh_perform_op`, with `left` attempts to go. */
  function Perform(env: Env, w: World, r: Request, left: nat): (World, Reply)
    requires left > 0
    decreases left
  {
    var (n, reply) := Attempt(w.node, r, env.fate(w.time));
    var v := World(n, w.time + 1);
    if reply.Got? || left == 1 then (v, reply) else Perform(env, v, r, left - 1)
  }

  function Op(env: Env, w: World, r: Request): (World, Reply) {
    Perform(env, w, r, RETRY_COUNT)
  }

  /** What `cmd_err_handler` accepts. */
  predicate Fine(r: Reply) {
    r.Got? && r.status == 0
  }

  function RefsOf(elem: Uint16, ids: seq<ModelId>): (refs: seq<ModelRef>)
    ensures |refs| == |ids|
  {
    if ids == [] then [] else [ModelRef(elem, ids[0])] + RefsOf(elem, ids[1..])
  }

  lemma RefsHead(elem: Uint16, ids: seq<ModelId>, later: seq<ModelRef>)
    requires ids != []
    ensures RefsOf(elem, ids) + later == [ModelRef(elem, ids[0])] + (RefsOf(elem, ids[1..]) + later)
  {
  }

  /** The models of the elements from index `i` on, in the order of the composition data. */
  function ModelsFrom(env: Env, i: nat): seq<ModelRef>
    requires i <= |env.elems|
    decreases |env.elems| - i
  {
    if i == |env.elems| then []
    else
      var elem := ElemAddr(env.addr, i);
      RefsOf(elem, env.elems[i].sig) + (RefsOf(elem, env.elems[i].vnd) + ModelsFrom(env, i + 1))
  }

  function Models(env: Env): seq<ModelRef> {
    ModelsFrom(env, 0)
  }

  lemma {:induction false} RefsAre(elem: Uint16, ids: seq<ModelId>, m: ModelRef)
    ensures m in RefsOf(elem, ids) <==> m.elem == elem && m.id in ids
  {
    if ids != [] {
      RefsAre(elem, ids[1..], m);
      assert ids == [ids[0]] + ids[1..];
    }
  }

  /** `m` is a model of element `i`, counted from the node's address in sixteen bits. */
  predicate ModelOf(env: Env, m: ModelRef, i: nat) {
    && i < |env.elems| && m.elem == (env.addr as int + i) % 0x1_0000
    && (m.id in env.elems[i].sig || m.id in env.elems[i].vnd)
  }

  /** The collector asks the models of each element at the address of that element. */
  lemma {:induction false} ModelsAre(env: Env, i: nat, m: ModelRef)
    requires i <= |env.elems|
    ensures m in ModelsFrom(env, i) <==> exists k: nat :: i <= k && ModelOf(env, m, k)
    decreases |env.elems| - i
  {
    if i < |env.elems| {
      var elem := ElemAddr(env.addr, i);
      RefsAre(elem, env.elems[i].sig, m);
      RefsAre(elem, env.elems[i].vnd, m);
      ModelsAre(env, i + 1, m);
      assert m in ModelsFrom(env, i) <==> ModelOf(env, m, i) || m in ModelsFrom(env, i + 1);
      if k: nat :| i <= k && ModelOf(env, m, k) && k != i {
        assert i + 1 <= k;
      }
    }
  }

  // ---------------------------------------------------------------- what fits the buffer

  /** The number of bytes the elements from index `i` on are encoded with. */
  function SizeFrom(env: Env, i: nat): nat
    requires i <= |env.elems|
    decreases |env.elems| - i
  {
    if i == |env.elems| then 0 else ElementSize(env.elems[i]) + SizeFrom(env, i + 1)
  }

  /** The composition data is longer than the buffer, so its end is missing. */
  predicate Cut(env: Env) {
    HEADER_LEN + SizeFrom(env, 0) > COMP_DATA_BUF_SIZE
  }

  lemma {:induction false} SizeIs(env: Env, i: nat)
    requires AllEncodable(env.elems) && i <= |env.elems|
    ensures |EncodeElements(env.elems[i..])| == SizeFrom(env, i)
    decreases |env.elems| - i
  {
    ElementFirst(env.elems, i);
    if i < |env.elems| {
      SizeIs(env, i + 1);
    }
  }

  /** Behind the ten bytes of its header the buffer has room for 54 bytes of elements. */
  lemma CutIff(env: Env)
    requires AllEncodable(env.elems)
    ensures Cut(env) <==> |EncodeElements(env.elems)| > 54
  {
    SizeIs(env, 0);
    assert env.elems[0..] == env.elems;
  }

  /** The models whose identifiers lie within the next `room` bytes. */
  function Fitting(elem: Uint16, ids: seq<ModelId>, room: nat): seq<ModelRef> {
    if ids == [] || |EncodeId(ids[0])| > room then []
    else [ModelRef(elem, ids[0])] + Fitting(elem, ids[1..], room - |EncodeId(ids[0])|)
  }

  /** The same for an element's models of both kinds and the elements behind it. */
  function VisibleFrom(env: Env, i: nat, room: nat): seq<ModelRef>
    requires i <= |env.elems|
    decreases |env.elems| - i
  {
    if i == |env.elems| || room < 4 then []
    else
      var e, elem, left := env.elems[i], ElemAddr(env.addr, i), room - 4;
      var sig, vnd := |EncodeIds(e.sig)|, |EncodeIds(e.vnd)|;
      Fitting(elem, e.sig, left) +
      (if sig > left then []
       else
         Fitting(elem, e.vnd, left - sig) +
         (if sig + vnd > left then [] else VisibleFrom(env, i + 1, left - sig - vnd)))
  }

  /** The models the collector can ask about. */
  function Visible(env: Env): seq<ModelRef> {
    VisibleFrom(env, 0, COMP_DATA_BUF_SIZE - HEADER_LEN)
  }

  lemma {:induction false} FittingIsPrefix(elem: Uint16, ids: seq<ModelId>, room: nat)
    ensures Fitting(elem, ids, room) <= RefsOf(elem, ids)
    ensures room >= |EncodeIds(ids)| ==> Fitting(elem, ids, room) == RefsOf(elem, ids)
  {
    if ids != [] && |EncodeId(ids[0])| <= room {
      FittingIsPrefix(elem, ids[1..], room - |EncodeId(ids[0])|);
    }
  }

  lemma LongerPrefix<T>(a: seq<T>, x: seq<T>, y: seq<T>)
    requires x <= y
    ensures a + x <= a + y
  {
  }

  lemma ShorterPrefix<T>(a: seq<T>, b: seq<T>, y: seq<T>)
    requires a <= b
    ensures a + [] <= b + y
  {
  }

  /** The collector sees the models in order up to where the data is cut off. */
  lemma {:induction false} VisibleIsPrefix(env: Env, i: nat, room: nat)
    requires i <= |env.elems|
    ensures VisibleFrom(env, i, room) <= ModelsFrom(env, i)
    ensures room >= SizeFrom(env, i) ==> VisibleFrom(env, i, room) == ModelsFrom(env, i)
    decreases |env.elems| - i
  {
    hide Fitting;
    hide RefsOf;
    hide EncodeIds;
    hide ElemAddr;
    if i < |env.elems| && room >= 4 {
      var e, elem, left := env.elems[i], ElemAddr(env.addr, i), room - 4;
      var sig, vnd := |EncodeIds(e.sig)|, |EncodeIds(e.vnd)|;
      var s, v, later := RefsOf(elem, e.sig), RefsOf(elem, e.vnd), ModelsFrom(env, i + 1);
      FittingIsPrefix(elem, e.sig, left);
      if sig > left {
        ShorterPrefix(Fitting(elem, e.sig, left), s, v + later);
      } else {
        FittingIsPrefix(elem, e.vnd, left - sig);
        if sig + vnd > left {
          ShorterPrefix(Fitting(elem, e.vnd, left - sig), v, later);
          LongerPrefix(s, Fitting(elem, e.vnd, left - sig) + [], v + later);
        } else {
          VisibleIsPrefix(env, i + 1, left - sig - vnd);
          LongerPrefix(v, VisibleFrom(env, i + 1, left - sig - vnd), later);
          LongerPrefix(s, v + VisibleFrom(env, i + 1, left - sig - vnd), v + later);
        }
      }
    }
  }

  lemma WholeIsVisible(env: Env)
    ensures Visible(env) <= Models(env)
    ensures !Cut(env) ==> Visible(env) == Models(env)
  {
    VisibleIsPrefix(env, 0, COMP_DATA_BUF_SIZE - HEADER_LEN);
  }

  // ---------------------------------------------------------------- the collector and the commands

  datatype Usage = Unused | InUse | QueryFailed

  /** Asks the models in turn until one uses the key or cannot be asked. */
  function Scan(env: Env, w: World, models: seq<ModelRef>, app: Uint16): (World, Usage)
    decreases |models|
  {
    if models == [] then (w, Unused)
    else
      var (v, reply) := Op(env, w, ModelGet(models[0]));
      if reply.NoReply? then (v, QueryFailed)
      else if app in reply.list then (v, InUse)
      else Scan(env, v, models[1..], app)
  }

  /** `btmesh_clean_node_key`. The walk ends before the cut only at a model that uses the key or
      cannot be asked. The configuration database is consulted only for the deletion, and without
      a check that it knows the key; the status of the deletion is ignored. */
  function Clean(env: Env, w: World, app: Uint16): (World, Outcome) {
    var (v, reply) := Op(env, w, CompGet);
    if reply.NoReply? then (v, Failed)
    else
      var (u, usage) := Scan(env, v, Visible(env), app);
      match usage
      case QueryFailed => (u, Failed)
      case InUse => (u, Done)
      case Unused =>
        if Cut(env) then (u, Overrun)
        else if app !in env.cdb then (u, NullKey)
        else
          var (x, del) := Op(env, u, KeyDel(AppKey(app, env.cdb[app])));
          (x, if del.NoReply? then Failed else Done)
  }

  /** The bind branch of `cmd_handler` */
  function BindModel(env: Env, w: World, m: ModelRef, app: Uint16): (World, Outcome) {
    if app !in env.cdb then (w, NoSuchKey)
    else
      var net := env.cdb[app];
      var (v, got) := Op(env, w, KeyGet(net));
      if !Fine(got) then (v, Failed)
      else
        var (u, added) := if app in got.list then (v, Got(0, [])) else Op(env, v, KeyAdd(AppKey(app, net)));
        if !Fine(added) then (u, Failed)
        else
          var (x, bound) := Op(env, u, Bind(m, app));
          (x, if Fine(bound) then Done else Failed)
  }

  /** The unbind branch of `cmd_handler` */
  function UnbindModel(env: Env, w: World, m: ModelRef, app: Uint16): (World, Outcome) {
    var (v, unbound) := Op(env, w, Unbind(m, app));
    if !Fine(unbound) then (v, Failed)
    else Clean(env, v, app)
  }

  datatype Command = BindCmd(model: ModelRef, app: Uint16) | UnbindCmd(model: ModelRef, app: Uint16)

  function Execute(env: Env, w: World, c: Command): (World, Outcome) {
    match c
    case BindCmd(m, app) => BindModel(env, w, m, app)
    case UnbindCmd(m, app) => UnbindModel(env, w, m, app)
  }

  function Run(env: Env, w: World, cs: seq<Command>): World
    decreases |cs|
  {
    if cs == [] then w else Run(env, Execute(env, w, cs[0]).0, cs[1..])
  }

  // ---------------------------------------------------------------- retries

  lemma ApplyTwice(n: Node, r: Request)
    ensures Apply(Apply(n, r), r) == Apply(n, r)
  {
    var once := Apply(n, r);
    if r.KeyAdd? && !Stored(n, r.key.app) {
      assert once.keys[|n.keys|] == r.key;
    }
    if (r.Bind? || r.Unbind?) && r.model in n.bound {
      assert once.bound[r.model := once.bound[r.model]] == once.bound;
    }
  }

  /** However many attempts are made and whichever answers get lost, the request takes effect
      once or not at all, and an accepted reply means that it did. */
  lemma {:induction false} RetriesActOnce(env: Env, w: World, r: Request, left: nat)
    requires left > 0
    ensures var (v, reply) := Perform(env, w, r, left);
      && (v.node == w.node || v.node == Apply(w.node, r))
      && (Fine(reply) ==> v.node == Apply(w.node, r))
      && (reply.Got? ==> reply == Answer(w.node, r) || reply == Answer(Apply(w.node, r), r) ||
                         (reply.status > 0 && reply.list == []))
    decreases left
  {
    var (n, reply) := Attempt(w.node, r, env.fate(w.time));
    ApplyTwice(w.node, r);
    if reply.NoReply? && left > 1 {
      RetriesActOnce(env, World(n, w.time + 1), r, left - 1);
    }
  }

  /** The t-th attempt brings no answer. */
  predicate Unanswered(env: Env, t: nat) {
    env.fate(t).Lost? || env.fate(t).AckLost?
  }

  /** The gateway gives up on a request exactly when all its attempts go without an answer. */
  lemma {:induction false} GivesUpIff(env: Env, w: World, r: Request, left: nat)
    requires left > 0
    ensures Perform(env, w, r, left).1.NoReply? <==> forall t | w.time <= t < w.time + left :: Unanswered(env, t)
    decreases left
  {
    var (n, reply) := Attempt(w.node, r, env.fate(w.time));
    assert reply.NoReply? <==> Unanswered(env, w.time);
    if reply.NoReply? && left > 1 {
      GivesUpIff(env, World(n, w.time + 1), r, left - 1);
    }
  }

  /** An operation makes three attempts and no more. */
  lemma GivesUpAfterThree(env: Env, w: World, r: Request)
    ensures Op(env, w, r).1.NoReply? <==>
            Unanswered(env, w.time) && Unanswered(env, w.time + 1) && Unanswered(env, w.time + 2)
    ensures Op(env, w, r).0.time <= w.time + 3
  {
    GivesUpIff(env, w, r, RETRY_COUNT);
    AttemptsMade(env, w, r, RETRY_COUNT);
  }

  lemma {:induction false} AttemptsMade(env: Env, w: World, r: Request, left: nat)
    requires left > 0
    ensures Perform(env, w, r, left).0.time <= w.time + left
    decreases left
  {
    var (n, reply) := Attempt(w.node, r, env.fate(w.time));
    if reply.NoReply? && left > 1 {
      AttemptsMade(env, World(n, w.time + 1), r, left - 1);
    }
  }

  /** No model query is refused. */
  ghost predicate QueriesAnswered(env: Env) {
    forall t: nat :: !env.fate(t).Blank?
  }

  lemma {:induction false} ModelQueryIsTruthful(env: Env, w: World, m: ModelRef, left: nat)
    requires left > 0 && QueriesAnswered(env)
    ensures var (v, reply) := Perform(env, w, ModelGet(m), left);
      v.node == w.node && (reply.Got? ==> reply.list == Bound(w.node, m))
    decreases left
  {
    var (n, reply) := Attempt(w.node, ModelGet(m), env.fate(w.time));
    assert !env.fate(w.time).Blank?;
    if reply.NoReply? && left > 1 {
      ModelQueryIsTruthful(env, World(n, w.time + 1), m, left - 1);
    }
  }

  // ---------------------------------------------------------------- safety

  /** Some model of the node uses the key. */
  ghost predicate Used(n: Node, app: Uint16) {
    exists m | m in n.bound :: app in n.bound[m]
  }

  /** Every application key that is bound to some model is stored on the node. */
  ghost predicate Safe(n: Node) {
    forall app: Uint16 :: Used(n, app) ==> Stored(n, app)
  }

  /** The node has exactly the models its composition data lists. */
  ghost predicate Composed(env: Env, n: Node) {
    forall m :: m in n.bound <==> m in Models(env)
  }

  lemma {:induction false} ScanFindsUse(env: Env, w: World, models: seq<ModelRef>, app: Uint16)
    requires QueriesAnswered(env)
    ensures var (v, usage) := Scan(env, w, models, app);
      && v.node == w.node
      && (usage == Unused ==> forall m | m in models :: app !in Bound(w.node, m))
      && (usage == InUse ==> exists m | m in models :: app in Bound(w.node, m))
    decreases |models|
  {
    if models != [] {
      var (v, reply) := Op(env, w, ModelGet(models[0]));
      ModelQueryIsTruthful(env, w, models[0], RETRY_COUNT);
      if reply.Got? && app !in reply.list {
        ScanFindsUse(env, v, models[1..], app);
        assert models == [models[0]] + models[1..];
      }
    }
  }

  /** Under losses and refusals of any kind but a refused model query, the collector deletes
      only a key no model uses, and crashes on a missing database entry only for such a key. */
  lemma CleanDeletesOnlyUnused(env: Env, w: World, app: Uint16)
    requires QueriesAnswered(env) && Composed(env, w.node)
    ensures var (v, outcome) := Clean(env, w, app);
      && (v.node == w.node ||
          (!Used(w.node, app) && app in env.cdb && v.node == Apply(w.node, KeyDel(AppKey(app, env.cdb[app])))))
      && (outcome == NullKey ==> !Used(w.node, app) && app !in env.cdb && v.node == w.node)
      && (Used(w.node, app) ==> v.node == w.node)
  {
    var (v, reply) := Op(env, w, CompGet);
    RetriesActOnce(env, w, CompGet, RETRY_COUNT);
    if reply.Got? {
      var (u, usage) := Scan(env, v, Visible(env), app);
      ScanFindsUse(env, v, Visible(env), app);
      WholeIsVisible(env);
      if usage == Unused && !Cut(env) {
        assert forall m | m in w.node.bound :: app !in Bound(w.node, m);
        if app in env.cdb {
          RetriesActOnce(env, u, KeyDel(AppKey(app, env.cdb[app])), RETRY_COUNT);
        }
      }
    }
  }

  lemma DeleteUnusedKeepsSafe(n: Node, key: AppKey)
    requires Safe(n) && !Used(n, key.app)
    ensures Safe(Apply(n, KeyDel(key)))
  {
    var d := Apply(n, KeyDel(key));
    forall app: Uint16 | Used(d, app) ensures Stored(d, app) {
      assert Used(n, app);
      var i :| 0 <= i < |n.keys| && n.keys[i].app == app;
      assert n.keys[i] in d.keys;
    }
  }

  lemma BindStoredKeepsSafe(n: Node, m: ModelRef, app: Uint16)
    requires Safe(n) && Stored(n, app)
    ensures Safe(Apply(n, Bind(m, app)))
  {
    var b := Apply(n, Bind(m, app));
    forall a: Uint16 | Used(b, a) ensures Stored(b, a) {
      assert a != app ==> Used(n, a) by {
        var k :| k in b.bound && a in b.bound[k];
        assert a != app ==> a in n.bound[k];
      }
    }
  }

  lemma UnbindKeepsSafe(n: Node, m: ModelRef, app: Uint16)
    requires Safe(n)
    ensures Safe(Apply(n, Unbind(m, app)))
  {
    var b := Apply(n, Unbind(m, app));
    forall a: Uint16 | Used(b, a) ensures Stored(b, a) {
      var k :| k in b.bound && a in b.bound[k];
      assert a in n.bound[k];
      assert Used(n, a);
    }
  }

  lemma AddKeepsSafe(n: Node, key: AppKey)
    requires Safe(n)
    ensures Safe(Apply(n, KeyAdd(key))) && Stored(Apply(n, KeyAdd(key)), key.app)
  {
    var a := Apply(n, KeyAdd(key));
    assert forall i | 0 <= i < |n.keys| :: a.keys[i] == n.keys[i];
    assert !Stored(n, key.app) ==> a.keys[|n.keys|] == key;
    forall app: Uint16 | Used(a, app) ensures Stored(a, app) {
      assert Used(n, app);
      var i :| 0 <= i < |n.keys| && n.keys[i].app == app;
      assert a.keys[i].app == app;
    }
  }

  lemma BindKeepsSafe(env: Env, w: World, m: ModelRef, app: Uint16)
    requires Safe(w.node)
    ensures Safe(BindModel(env, w, m, app).0.node)
  {
    if app in env.cdb {
      var net := env.cdb[app];
      var (v, got) := Op(env, w, KeyGet(net));
      RetriesActOnce(env, w, KeyGet(net), RETRY_COUNT);
      if Fine(got) {
        var u, added := v, Got(0, []);
        if app in got.list {
          assert AppKey(app, net) in v.node.keys;
        } else {
          var x := Op(env, v, KeyAdd(AppKey(app, net)));
          u, added := x.0, x.1;
          RetriesActOnce(env, v, KeyAdd(AppKey(app, net)), RETRY_COUNT);
          AddKeepsSafe(v.node, AppKey(app, net));
        }
        if Fine(added) {
          RetriesActOnce(env, u, Bind(m, app), RETRY_COUNT);
          BindStoredKeepsSafe(u.node, m, app);
        }
      }
    }
  }

  /** The main safety property: over every run of bind and unbind commands, with requests and
      acknowledgements lost and requests refused arbitrarily, as long as no model query is
      refused, every key bound to a model stays stored on the node. */
  lemma {:induction false} EveryRunKeepsBoundKeys(env: Env, w: World, cs: seq<Command>)
    requires QueriesAnswered(env) && Safe(w.node) && Composed(env, w.node)
    ensures Safe(Run(env, w, cs).node) && Composed(env, Run(env, w, cs).node)
    decreases |cs|
  {
    if cs != [] {
      AnsweredCommandLosesNothing(env, w, cs[0]);
      CommandKeepsSafeIff(env, w, cs[0]);
      CommandKeepsModels(env, w, cs[0]);
      EveryRunKeepsBoundKeys(env, Execute(env, w, cs[0]).0, cs[1..]);
    }
  }

  // ---------------------------------------------------------------- exactly when a key is lost

  /** The first of up to `left` attempts from the t-th on that brings an answer. */
  function FirstAnswer(env: Env, t: nat, left: nat): Option<nat>
    decreases left
  {
    if left == 0 then None else if Unanswered(env, t) then FirstAnswer(env, t + 1, left - 1) else Some(t)
  }

  /** The attempt after those an operation makes. */
  function AfterOp(env: Env, t: nat, left: nat): (end: nat)
    ensures t <= end <= t + left && (left > 0 ==> t < end)
    decreases left
  {
    if left == 0 then t else if Unanswered(env, t) then AfterOp(env, t + 1, left - 1) else t + 1
  }

  /** When the k-th of a series of operations starts. */
  function OpStart(env: Env, t: nat, k: nat): nat
    decreases k
  {
    if k == 0 then t else OpStart(env, AfterOp(env, t, RETRY_COUNT), k - 1)
  }

  /** A model query started at the t-th attempt is answered. */
  predicate QueryAnswered(env: Env, t: nat) {
    FirstAnswer(env, t, RETRY_COUNT).Some?
  }

  /** It is answered with a refusal. */
  predicate QueryRefused(env: Env, t: nat) {
    QueryAnswered(env, t) &&
    var f := env.fate(FirstAnswer(env, t, RETRY_COUNT).value);
    f.Blank? && f.status > 0
  }

  /** The t-th attempt makes a write take effect on the node. */
  predicate Lands(env: Env, t: nat) {
    !env.fate(t).Lost? && !(env.fate(t).Refused? && env.fate(t).status > 0)
  }

  /** Some attempt of a write started at the t-th attempt takes effect. */
  ghost predicate Landed(env: Env, t: nat) {
    exists x | t <= x < AfterOp(env, t, RETRY_COUNT) :: Lands(env, x)
  }

  /** There is a first answer, and it is no refusal. */
  predicate NotRefused(env: Env, first: Option<nat>) {
    first.Some? && !(env.fate(first.value).Refused? && env.fate(first.value).status > 0)
  }

  /** A request started at the t-th attempt is answered, and not refused. */
  predicate Accepted(env: Env, t: nat) {
    NotRefused(env, FirstAnswer(env, t, RETRY_COUNT))
  }

  /** Queries from the t-th attempt on are all answered, and every model that uses the key is
      refused its say. */
  ghost predicate Overlooked(env: Env, n: Node, models: seq<ModelRef>, app: Uint16, t: nat) {
    forall k: nat | k < |models| ::
      var q := OpStart(env, t, k);
      QueryAnswered(env, q) && (app in Bound(n, models[k]) ==> QueryRefused(env, q))
  }

  /** The composition data arrives, and no visible model is found to use the key. */
  ghost predicate FindsNoUse(env: Env, w: World, app: Uint16) {
    && FirstAnswer(env, w.time, RETRY_COUNT).Some?
    && Overlooked(env, w.node, Visible(env), app, AfterOp(env, w.time, RETRY_COUNT))
  }

  /** When the collector starts the deletion, if it comes so far. */
  function DeletionStart(env: Env, w: World): nat {
    OpStart(env, AfterOp(env, w.time, RETRY_COUNT), |Visible(env)|)
  }

  /** Some attempt of the deletion takes effect. */
  ghost predicate DeletionLands(env: Env, w: World) {
    Landed(env, DeletionStart(env, w))
  }

  /** Some model is found to use the key, before a query goes without an answer. */
  ghost predicate HearsUse(env: Env, n: Node, models: seq<ModelRef>, app: Uint16, t: nat) {
    exists k: nat :: HeardAt(env, n, models, app, t, k)
  }

  ghost predicate HeardAt(env: Env, n: Node, models: seq<ModelRef>, app: Uint16, t: nat, k: nat) {
    var q := OpStart(env, t, k);
    && k < |models| && Overlooked(env, n, models[..k], app, t)
    && QueryAnswered(env, q) && !QueryRefused(env, q) && app in Bound(n, models[k])
  }

  ghost predicate FindsUse(env: Env, w: World, app: Uint16) {
    && FirstAnswer(env, w.time, RETRY_COUNT).Some?
    && HearsUse(env, w.node, Visible(env), app, AfterOp(env, w.time, RETRY_COUNT))
  }

  /** Collecting `app` deletes a key in use: the composition data arrives whole, every use is
      overlooked, and the deletion of the only record of the key lands. */
  ghost predicate LosesKey(env: Env, w: World, app: Uint16) {
    && Used(w.node, app) && app in env.cdb && !Cut(env)
    && (forall k | k in w.node.keys && k.app == app :: k.net == env.cdb[app])
    && FindsNoUse(env, w, app) && DeletionLands(env, w)
  }

  /** An operation that does not write: who answers, and when the next one starts. */
  lemma {:induction false} QueryTiming(env: Env, w: World, r: Request, left: nat)
    requires left > 0 && (r.CompGet? || r.ModelGet?)
    ensures var (v, reply) := Perform(env, w, r, left);
      var first := FirstAnswer(env, w.time, left);
      && v == World(w.node, AfterOp(env, w.time, left))
      && (reply.NoReply? <==> first.None?)
      && (first.Some? && r.ModelGet? ==>
            reply.list == if env.fate(first.value).Blank? && env.fate(first.value).status > 0 then []
                          else Bound(w.node, r.model))
    decreases left
  {
    var (n, reply) := Attempt(w.node, r, env.fate(w.time));
    if reply.NoReply? {
      assert Unanswered(env, w.time);
      if left > 1 {
        QueryTiming(env, World(n, w.time + 1), r, left - 1);
      }
    }
  }

  lemma RepeatedAnswer(n: Node, r: Request)
    ensures Answer(Apply(n, r), r) == Answer(n, r) && Answer(n, r).Got?
  {
  }

  /** One attempt at the t-th try: its effect and its answer. */
  lemma OneAttempt(env: Env, n: Node, r: Request, t: nat)
    requires !r.CompGet? && !r.ModelGet?
    ensures var (v, reply) := Attempt(n, r, env.fate(t));
      && v == (if Lands(env, t) then Apply(n, r) else n)
      && (reply.NoReply? <==> Unanswered(env, t))
      && (!Unanswered(env, t) ==>
            && (Fine(reply) <==> NotRefused(env, Some(t)) && Answer(n, r).status == 0)
            && (Fine(reply) ==> reply == Answer(n, r)))
  {
  }

  lemma {:induction false} OpLeaves(env: Env, w: World, r: Request, left: nat)
    requires left > 0 && !r.CompGet? && !r.ModelGet?
    ensures var v := Perform(env, w, r, left).0;
      && v.time == AfterOp(env, w.time, left)
      && v.node == (if exists x | w.time <= x < AfterOp(env, w.time, left) :: Lands(env, x)
                    then Apply(w.node, r) else w.node)
    decreases left
  {
    var t := w.time;
    var (n, reply) := Attempt(w.node, r, env.fate(t));
    OneAttempt(env, w.node, r, t);
    ApplyTwice(w.node, r);
    hide Apply;
    hide Attempt;
    hide Lands;
    hide Unanswered;
    var end := AfterOp(env, t, left);
    if reply.NoReply? && left > 1 {
      OpLeaves(env, World(n, t + 1), r, left - 1);
      if x :| t <= x < end && Lands(env, x) && !Lands(env, t) {
        assert t + 1 <= x;
      }
    } else {
      assert end == t + 1;
    }
  }

  lemma {:induction false} OpReports(env: Env, w: World, r: Request, left: nat)
    requires left > 0 && !r.CompGet? && !r.ModelGet?
    ensures var reply, first := Perform(env, w, r, left).1, FirstAnswer(env, w.time, left);
      && (reply.Got? <==> first.Some?)
      && (Fine(reply) <==> NotRefused(env, first) && Answer(w.node, r).status == 0)
      && (Fine(reply) ==> reply == Answer(w.node, r))
    decreases left
  {
    var t := w.time;
    var (n, reply) := Attempt(w.node, r, env.fate(t));
    OneAttempt(env, w.node, r, t);
    RepeatedAnswer(w.node, r);
    hide Apply;
    hide Answer;
    hide Attempt;
    hide Unanswered;
    if reply.NoReply? && left > 1 {
      OpReports(env, World(n, t + 1), r, left - 1);
    }
  }

  /** An operation the node may refuse: what it leaves, when it is over and what it reports. */
  lemma OpTiming(env: Env, w: World, r: Request)
    requires !r.CompGet? && !r.ModelGet?
    ensures var (v, reply) := Op(env, w, r);
      && v.time == AfterOp(env, w.time, RETRY_COUNT)
      && v.node == (if Landed(env, w.time) then Apply(w.node, r) else w.node)
      && (reply.Got? <==> FirstAnswer(env, w.time, RETRY_COUNT).Some?)
      && (Fine(reply) <==> Accepted(env, w.time) && Answer(w.node, r).status == 0)
      && (Fine(reply) ==> reply == Answer(w.node, r))
  {
    OpLeaves(env, w, r, RETRY_COUNT);
    OpReports(env, w, r, RETRY_COUNT);
  }

  lemma OverlookedCons(env: Env, n: Node, models: seq<ModelRef>, app: Uint16, t: nat)
    requires models != []
    ensures Overlooked(env, n, models, app, t) <==>
            && QueryAnswered(env, t) && (app in Bound(n, models[0]) ==> QueryRefused(env, t))
            && Overlooked(env, n, models[1..], app, AfterOp(env, t, RETRY_COUNT))
  {
    var u := AfterOp(env, t, RETRY_COUNT);
    assert OpStart(env, t, 0) == t;
    assert forall k: nat | k < |models| - 1 :: OpStart(env, t, k + 1) == OpStart(env, u, k);
    assert forall k: nat | 0 < k < |models| :: OpStart(env, t, k) == OpStart(env, u, k - 1);
    assert forall k: nat | k < |models| - 1 :: models[1..][k] == models[k + 1];
  }

  lemma HeardLater(env: Env, n: Node, models: seq<ModelRef>, app: Uint16, t: nat, k: nat)
    requires models != []
    ensures HeardAt(env, n, models, app, t, k + 1) <==>
            && QueryAnswered(env, t) && (app in Bound(n, models[0]) ==> QueryRefused(env, t))
            && HeardAt(env, n, models[1..], app, AfterOp(env, t, RETRY_COUNT), k)
  {
    hide Overlooked;
    if k + 1 < |models| {
      OverlookedCons(env, n, models[..k + 1], app, t);
      assert models[..k + 1][1..] == models[1..][..k];
    }
  }

  lemma HeardFirst(env: Env, n: Node, models: seq<ModelRef>, app: Uint16, t: nat)
    requires models != []
    ensures HeardAt(env, n, models, app, t, 0) <==>
            QueryAnswered(env, t) && !QueryRefused(env, t) && app in Bound(n, models[0])
  {
    assert models[..0] == [];
    NothingOverlooked(env, n, app, t);
    hide Overlooked;
  }

  lemma HearsUseCons(env: Env, n: Node, models: seq<ModelRef>, app: Uint16, t: nat)
    requires models != []
    ensures HearsUse(env, n, models, app, t) <==>
            QueryAnswered(env, t) &&
            if app in Bound(n, models[0]) && !QueryRefused(env, t) then true
            else HearsUse(env, n, models[1..], app, AfterOp(env, t, RETRY_COUNT))
  {
    hide HeardAt;
    var u := AfterOp(env, t, RETRY_COUNT);
    HeardFirst(env, n, models, app, t);
    if k: nat :| HeardAt(env, n, models[1..], app, u, k) {
      HeardLater(env, n, models, app, t, k);
    }
    if k: nat :| HeardAt(env, n, models, app, t, k) && k > 0 {
      HeardLater(env, n, models, app, t, k - 1);
    }
  }

  lemma {:induction false} ScanTiming(env: Env, w: World, models: seq<ModelRef>, app: Uint16)
    ensures Scan(env, w, models, app).0.node == w.node
    ensures Scan(env, w, models, app).1 == Unused <==> Overlooked(env, w.node, models, app, w.time)
    ensures Scan(env, w, models, app).1 == InUse <==> HearsUse(env, w.node, models, app, w.time)
    ensures Scan(env, w, models, app).1 == Unused ==>
            Scan(env, w, models, app).0.time == OpStart(env, w.time, |models|)
    decreases |models|
  {
    hide Overlooked;
    hide HearsUse;
    if models == [] {
      NothingOverlooked(env, w.node, app, w.time);
      NothingHeard(env, w.node, app, w.time);
    } else {
      QueryTiming(env, w, ModelGet(models[0]), RETRY_COUNT);
      OverlookedCons(env, w.node, models, app, w.time);
      HearsUseCons(env, w.node, models, app, w.time);
      ScanTiming(env, Op(env, w, ModelGet(models[0])).0, models[1..], app);
    }
  }

  lemma NothingHeard(env: Env, n: Node, app: Uint16, t: nat)
    ensures !HearsUse(env, n, [], app, t)
  {
  }

  lemma NothingOverlooked(env: Env, n: Node, app: Uint16, t: nat)
    ensures Overlooked(env, n, [], app, t)
  {
  }

  /** What the collector does in every environment: when it deletes the key, when it reports
      success, and when it crashes. In all other cases it reports a failure. */
  lemma CleanInAnyEnvironment(env: Env, w: World, app: Uint16)
    ensures var (v, outcome) := Clean(env, w, app);
      && v.node == (if app in env.cdb && !Cut(env) && FindsNoUse(env, w, app) && DeletionLands(env, w)
                    then Apply(w.node, KeyDel(AppKey(app, env.cdb[app]))) else w.node)
      && (outcome == Done <==>
            || FindsUse(env, w, app)
            || (app in env.cdb && !Cut(env) && FindsNoUse(env, w, app) &&
                FirstAnswer(env, DeletionStart(env, w), RETRY_COUNT).Some?))
      && (outcome == NullKey <==> app !in env.cdb && !Cut(env) && FindsNoUse(env, w, app))
      && (outcome == Overrun <==> Cut(env) && FindsNoUse(env, w, app))
      && outcome != NoSuchKey
  {
    hide Overlooked;
    hide HearsUse;
    hide Scan;
    hide Cut;
    hide Apply;
    QueryTiming(env, w, CompGet, RETRY_COUNT);
    var v := Op(env, w, CompGet).0;
    ScanTiming(env, v, Visible(env), app);
    if app in env.cdb {
      OpTiming(env, Scan(env, v, Visible(env), app).0, KeyDel(AppKey(app, env.cdb[app])));
    }
  }

  /** The status of the deletion is ignored. A key that no model uses is gone after a reported
      success exactly when some attempt of the deletion takes effect. */
  lemma DoneMeansDeletedIff(env: Env, w: World, app: Uint16)
    requires !Used(w.node, app) && app in env.cdb && AppKey(app, env.cdb[app]) in w.node.keys
    requires Clean(env, w, app).1 == Done
    ensures AppKey(app, env.cdb[app]) !in Clean(env, w, app).0.node.keys <==> DeletionLands(env, w)
  {
    CleanInAnyEnvironment(env, w, app);
    DoneMeansNoUseFound(env, w, app);
    hide DeletionLands;
    hide FindsNoUse;
    hide Clean;
  }

  lemma {:induction false} UseIsNotInvented(env: Env, w: World, models: seq<ModelRef>, app: Uint16)
    requires !Used(w.node, app)
    ensures Scan(env, w, models, app).1 != InUse
    decreases |models|
  {
    if models != [] {
      var (v, reply) := Op(env, w, ModelGet(models[0]));
      QueryTiming(env, w, ModelGet(models[0]), RETRY_COUNT);
      assert app !in Bound(w.node, models[0]);
      hide Op;
      UseIsNotInvented(env, v, models[1..], app);
    }
  }

  lemma DoneMeansNoUseFound(env: Env, w: World, app: Uint16)
    requires !Used(w.node, app) && Clean(env, w, app).1 == Done
    ensures !Cut(env) && FindsNoUse(env, w, app)
  {
    hide Overlooked;
    hide Cut;
    hide Visible;
    var v := Op(env, w, CompGet).0;
    QueryTiming(env, w, CompGet, RETRY_COUNT);
    UseIsNotInvented(env, v, Visible(env), app);
    ScanTiming(env, v, Visible(env), app);
  }

  /** The collector does not look at the status of a model query. Whatever is lost or refused, it
      keeps the node safe exactly when it does not lose the key in the way described above. */
  lemma CleanKeepsSafeIff(env: Env, w: World, app: Uint16)
    requires Safe(w.node)
    ensures Safe(Clean(env, w, app).0.node) <==> !LosesKey(env, w, app)
  {
    hide FindsNoUse;
    hide DeletionLands;
    hide Clean;
    hide Used;
    hide Stored;
    hide Safe;
    CleanInAnyEnvironment(env, w, app);
    if app in env.cdb {
      DeletionKeepsSafeIff(w.node, AppKey(app, env.cdb[app]));
    }
  }

  lemma DeletionKeepsSafeIff(n: Node, key: AppKey)
    requires Safe(n)
    ensures Safe(Apply(n, KeyDel(key))) <==>
            !(Used(n, key.app) && forall k | k in n.keys && k.app == key.app :: k.net == key.net)
  {
    if !Used(n, key.app) {
      DeleteUnusedKeepsSafe(n, key);
    } else if k :| k in n.keys && k.app == key.app && k.net != key.net {
      DeleteOtherKeepsSafe(n, key, k);
    } else {
      DeleteUsedBreaksSafe(n, key);
    }
  }

  lemma DeleteOtherKeepsSafe(n: Node, key: AppKey, other: AppKey)
    requires Safe(n) && other in n.keys && other.app == key.app && other != key
    ensures Safe(Apply(n, KeyDel(key)))
  {
    var d := Apply(n, KeyDel(key));
    forall app: Uint16 | Used(d, app) ensures Stored(d, app) {
      assert Used(n, app);
      var i :| 0 <= i < |n.keys| && n.keys[i].app == app;
      assert if app == key.app then other in d.keys else n.keys[i] in d.keys;
    }
  }

  /** The one way a command makes the node unsafe. */
  ghost predicate CommandLosesKey(env: Env, w: World, c: Command) {
    c.UnbindCmd? &&
    var (v, unbound) := Op(env, w, Unbind(c.model, c.app));
    Fine(unbound) && LosesKey(env, v, c.app)
  }

  lemma CommandKeepsSafeIff(env: Env, w: World, c: Command)
    requires Safe(w.node)
    ensures Safe(Execute(env, w, c).0.node) <==> !CommandLosesKey(env, w, c)
  {
    hide LosesKey;
    hide Clean;
    hide BindModel;
    if c.BindCmd? {
      BindKeepsSafe(env, w, c.model, c.app);
    } else {
      RetriesActOnce(env, w, Unbind(c.model, c.app), RETRY_COUNT);
      UnbindKeepsSafe(w.node, c.model, c.app);
      CleanKeepsSafeIff(env, Op(env, w, Unbind(c.model, c.app)).0, c.app);
    }
  }

  /** With no refused model query on a node as composed, every use is heard. */
  lemma AnsweredCommandLosesNothing(env: Env, w: World, c: Command)
    requires QueriesAnswered(env) && Composed(env, w.node)
    ensures !CommandLosesKey(env, w, c)
  {
    if c.UnbindCmd? {
      var v := Op(env, w, Unbind(c.model, c.app)).0;
      RetriesActOnce(env, w, Unbind(c.model, c.app), RETRY_COUNT);
      WholeIsVisible(env);
      if Used(v.node, c.app) {
        UseIsHeard(env, v.node, c.app, AfterOp(env, v.time, RETRY_COUNT));
      }
    }
  }

  lemma UseIsHeard(env: Env, n: Node, app: Uint16, t: nat)
    requires QueriesAnswered(env) && Composed(env, n) && Used(n, app)
    ensures !Overlooked(env, n, Models(env), app, t)
  {
    var m :| m in n.bound && app in n.bound[m];
    var k :| 0 <= k < |Models(env)| && Models(env)[k] == m;
    assert !QueryRefused(env, OpStart(env, t, k));
  }

  /** The node is safe after each command of a run. */
  ghost predicate SafeThroughout(env: Env, w: World, cs: seq<Command>)
    decreases |cs|
  {
    Safe(w.node) && (cs == [] || SafeThroughout(env, Execute(env, w, cs[0]).0, cs[1..]))
  }

  ghost predicate NoCommandLosesKey(env: Env, w: World, cs: seq<Command>)
    decreases |cs|
  {
    cs == [] || (!CommandLosesKey(env, w, cs[0]) && NoCommandLosesKey(env, Execute(env, w, cs[0]).0, cs[1..]))
  }

  /** Over every run and whatever is lost or refused, the bound keys stay stored exactly when no
      command loses one. */
  lemma {:induction false} RunsAreSafeIff(env: Env, w: World, cs: seq<Command>)
    requires Safe(w.node)
    ensures SafeThroughout(env, w, cs) <==> NoCommandLosesKey(env, w, cs)
    decreases |cs|
  {
    if cs != [] {
      CommandKeepsSafeIff(env, w, cs[0]);
      if !CommandLosesKey(env, w, cs[0]) {
        RunsAreSafeIff(env, Execute(env, w, cs[0]).0, cs[1..]);
      }
    }
  }

  lemma DeleteUsedBreaksSafe(n: Node, key: AppKey)
    requires Used(n, key.app) && forall k | k in n.keys && k.app == key.app :: k == key
    ensures !Safe(Apply(n, KeyDel(key)))
  {
    var d := Apply(n, KeyDel(key));
    assert forall k | k in d.keys :: k in n.keys && k != key;
    NotStored(d, key.app);
    assert Used(d, key.app);
  }

  lemma NotStored(n: Node, app: Uint16)
    ensures (forall k | k in n.keys :: k.app != app) ==> !Stored(n, app)
  {
  }

  // ---------------------------------------------------------------- what a command achieves

  /** What binding does in every environment: the key is looked up, added unless it was reported,
      and bound; each request must be answered and not refused for the next to be made. */
  lemma BindInAnyEnvironment(env: Env, w: World, m: ModelRef, app: Uint16)
    requires app in env.cdb
    ensures var key := AppKey(app, env.cdb[app]);
      var known, looked := key in w.node.keys, Accepted(env, w.time);
      var t := AfterOp(env, w.time, RETRY_COUNT);
      var added := if looked && !known && Landed(env, t) then Apply(w.node, KeyAdd(key)) else w.node;
      var binds := looked && (known || Accepted(env, t));
      var u := if known then t else AfterOp(env, t, RETRY_COUNT);
      var (v, outcome) := BindModel(env, w, m, app);
      && v.node == (if binds && Landed(env, u) then Apply(added, Bind(m, app)) else added)
      && outcome == (if binds && Accepted(env, u) && m in w.node.bound then Done else Failed)
  {
    var key := AppKey(app, env.cdb[app]);
    OpTiming(env, w, KeyGet(key.net));
    var v := Op(env, w, KeyGet(key.net)).0;
    OpTiming(env, v, KeyAdd(key));
    var u := if key in w.node.keys then v else Op(env, v, KeyAdd(key)).0;
    OpTiming(env, u, Bind(m, app));
    hide Op;
    hide AfterOp;
    hide Lands;
  }

  /** What unbinding does in every environment: it collects exactly after a request that was
      answered and not refused, by the gateway's choice or for want of the model. */
  lemma UnbindInAnyEnvironment(env: Env, w: World, m: ModelRef, app: Uint16)
    ensures var n := if Landed(env, w.time) then Apply(w.node, Unbind(m, app)) else w.node;
      var v := World(n, AfterOp(env, w.time, RETRY_COUNT));
      UnbindModel(env, w, m, app) ==
      if Accepted(env, w.time) && m in w.node.bound then Clean(env, v, app) else (v, Failed)
  {
    hide Clean;
    OpTiming(env, w, Unbind(m, app));
  }

  /** Only the binding of `app` to `m` may differ. */
  ghost predicate SameElsewhere(a: Node, b: Node, m: ModelRef, app: Uint16) {
    && a.bound.Keys == b.bound.Keys
    && forall k, x | k in a.bound && (k != m || x != app) :: x in a.bound[k] <==> x in b.bound[k]
  }

  lemma RequestsTouchOneBinding(n: Node, r: Request, m: ModelRef, app: Uint16)
    requires (r.Bind? || r.Unbind?) ==> r.model == m && r.app == app
    ensures SameElsewhere(n, Apply(n, r), m, app)
  {
  }

  lemma StoredAfterAdd(n: Node, key: AppKey, app: Uint16)
    ensures Stored(Apply(n, KeyAdd(key)), app) <==> Stored(n, app) || app == key.app
  {
    var a := Apply(n, KeyAdd(key));
    assert forall i | 0 <= i < |n.keys| :: a.keys[i] == n.keys[i];
    assert !Stored(n, key.app) ==> a.keys[|n.keys|] == key;
    if i :| 0 <= i < |n.keys| && n.keys[i].app == app {
      assert a.keys[i].app == app;
    }
  }

  /** When binding reports success the key is bound and stored, whatever was lost on the way; it
      reports a missing key exactly when the database has none; and in every case no other binding
      is touched. */
  lemma BindOutcome(env: Env, w: World, m: ModelRef, app: Uint16)
    ensures var (v, outcome) := BindModel(env, w, m, app);
      && (outcome == Done ==> app in Bound(v.node, m) && Stored(v.node, app))
      && (outcome == NoSuchKey <==> app !in env.cdb)
      && SameElsewhere(w.node, v.node, m, app)
  {
    if app in env.cdb {
      var net := env.cdb[app];
      var (v, got) := Op(env, w, KeyGet(net));
      RetriesActOnce(env, w, KeyGet(net), RETRY_COUNT);
      if Fine(got) {
        var u, added := v, Got(0, []);
        if app in got.list {
          assert AppKey(app, net) in v.node.keys;
        } else {
          var x := Op(env, v, KeyAdd(AppKey(app, net)));
          u, added := x.0, x.1;
          RetriesActOnce(env, v, KeyAdd(AppKey(app, net)), RETRY_COUNT);
          StoredAfterAdd(v.node, AppKey(app, net), app);
        }
        if Fine(added) {
          RetriesActOnce(env, u, Bind(m, app), RETRY_COUNT);
          BoundMeansThere(env, u, m, app, RETRY_COUNT);
          RequestsTouchOneBinding(u.node, Bind(m, app), m, app);
        }
      }
    }
  }

  lemma {:induction false} BoundMeansThere(env: Env, w: World, m: ModelRef, app: Uint16, left: nat)
    requires left > 0
    ensures Fine(Perform(env, w, Bind(m, app), left).1) ==> app in Bound(Apply(w.node, Bind(m, app)), m)
    decreases left
  {
    var (n, reply) := Attempt(w.node, Bind(m, app), env.fate(w.time));
    ApplyTwice(w.node, Bind(m, app));
    if reply.NoReply? && left > 1 {
      BoundMeansThere(env, World(n, w.time + 1), m, app, left - 1);
    }
  }

  /** Collecting a key touches no binding. */
  lemma CleanKeepsBindings(env: Env, w: World, app: Uint16)
    ensures Clean(env, w, app).0.node.bound == w.node.bound
  {
    hide Clean;
    CleanInAnyEnvironment(env, w, app);
  }

  /** When unbinding reports success, or trips over a missing key, the key is no longer bound to
      the model; in every case no other binding is touched. */
  lemma UnbindOutcome(env: Env, w: World, m: ModelRef, app: Uint16)
    ensures var (v, outcome) := UnbindModel(env, w, m, app);
      && (outcome == Done || outcome == NullKey ==> app !in Bound(v.node, m))
      && SameElsewhere(w.node, v.node, m, app)
  {
    var (v, unbound) := Op(env, w, Unbind(m, app));
    RetriesActOnce(env, w, Unbind(m, app), RETRY_COUNT);
    RequestsTouchOneBinding(w.node, Unbind(m, app), m, app);
    CleanKeepsBindings(env, v, app);
  }

  lemma CommandKeepsModels(env: Env, w: World, c: Command)
    ensures Execute(env, w, c).0.node.bound.Keys == w.node.bound.Keys
  {
    if c.BindCmd? {
      BindOutcome(env, w, c.model, c.app);
    } else {
      UnbindOutcome(env, w, c.model, c.app);
    }
  }
}
