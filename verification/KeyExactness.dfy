/** When no request is refused or given up, the keys a node stores are the keys in use: what a
    command leaves behind, exactly when the node stays so, and runs in which it does not. */
module KeyExactness {
  import opened Util
  import opened Composition
  import opened KeyLifecycle

  // ---------------------------------------------------------------- requests that get through

  /** Attempts and answers may get lost, but nothing is refused, and of any three attempts in a
      row one is answered. */
  ghost predicate Heard(env: Env) {
    && (forall t: nat :: env.fate(t).Lost? || env.fate(t).AckLost? || env.fate(t).Answered?)
    && (forall t: nat :: FirstAnswer(env, t, RETRY_COUNT).Some?)
  }

  lemma {:induction false} HeardPerform(env: Env, w: World, r: Request, left: nat)
    requires Heard(env) && left > 0 && FirstAnswer(env, w.time, left).Some?
    ensures var (v, reply) := Perform(env, w, r, left); v.node == Apply(w.node, r) && reply == Answer(w.node, r)
    decreases left
  {
    var (n, reply) := Attempt(w.node, r, env.fate(w.time));
    ApplyTwice(w.node, r);
    RepeatedAnswer(w.node, r);
    hide Apply;
    hide Answer;
    assert reply.NoReply? ==> Unanswered(env, w.time);
    if reply.NoReply? {
      HeardPerform(env, World(n, w.time + 1), r, left - 1);
    }
  }

  lemma HeardOp(env: Env, w: World, r: Request)
    requires Heard(env)
    ensures var (v, reply) := Op(env, w, r); v.node == Apply(w.node, r) && reply == Answer(w.node, r)
  {
    HeardPerform(env, w, r, RETRY_COUNT);
  }

  lemma {:induction false} HeardScan(env: Env, w: World, models: seq<ModelRef>, app: Uint16)
    requires Heard(env)
    ensures Scan(env, w, models, app).1 ==
            if exists m | m in models :: app in Bound(w.node, m) then InUse else Unused
    ensures Scan(env, w, models, app).0.node == w.node
    decreases |models|
  {
    hide Op;
    if models != [] {
      HeardOp(env, w, ModelGet(models[0]));
      HeardScan(env, Op(env, w, ModelGet(models[0])).0, models[1..], app);
      assert models[0] in models;
      assert forall m :: m in models <==> m == models[0] || m in models[1..];
    }
  }

  /** A model the collector gets to see uses the key. */
  ghost predicate SeenUsed(env: Env, n: Node, app: Uint16) {
    exists m | m in Visible(env) :: app in Bound(n, m)
  }

  /** Of composition data that fits the buffer every use is seen. */
  lemma SeenIffUsed(env: Env, n: Node, app: Uint16)
    requires Composed(env, n)
    ensures SeenUsed(env, n, app) ==> Used(n, app)
    ensures !Cut(env) ==> (SeenUsed(env, n, app) <==> Used(n, app))
  {
    hide Visible;
    hide Models;
    hide Cut;
    WholeIsVisible(env);
  }

  /** The collector deletes the key if and only if no model on any element uses it, the buffer holds
      all the composition data and the configuration database has the key. It reads through a null
      pointer exactly when only the last of these fails, and runs over the end of the buffer exactly
      when the data is cut off and no model before the cut uses the key. */
  lemma CleanDeletesIffUnused(env: Env, w: World, app: Uint16)
    requires Heard(env) && Composed(env, w.node)
    ensures var (v, outcome) := Clean(env, w, app);
      && v.node == (if !Used(w.node, app) && !Cut(env) && app in env.cdb
                    then Apply(w.node, KeyDel(AppKey(app, env.cdb[app]))) else w.node)
      && (outcome == NullKey <==> !Used(w.node, app) && !Cut(env) && app !in env.cdb)
      && (outcome == Overrun <==> !SeenUsed(env, w.node, app) && Cut(env))
      && (outcome.Done? || outcome.NullKey? || outcome.Overrun?)
  {
    hide Op;
    hide Scan;
    hide Cut;
    hide Visible;
    HeardOp(env, w, CompGet);
    var v := Op(env, w, CompGet).0;
    HeardScan(env, v, Visible(env), app);
    SeenIffUsed(env, w.node, app);
    if app in env.cdb {
      HeardOp(env, Scan(env, v, Visible(env), app).0, KeyDel(AppKey(app, env.cdb[app])));
    }
  }

  // ---------------------------------------------------------------- what a command leaves

  /** The node stores the keys in use and no other, each under the network key on record. */
  ghost predicate Exact(env: Env, n: Node) {
    && (forall app: Uint16 :: Stored(n, app) <==> Used(n, app))
    && (forall k | k in n.keys :: k.app in env.cdb && env.cdb[k.app] == k.net)
  }

  /** The key is added if the node does not report it, then bound. */
  lemma BindReaches(env: Env, w: World, m: ModelRef, app: Uint16)
    requires Heard(env) && app in env.cdb
    ensures var key := AppKey(app, env.cdb[app]);
      var a := if key in w.node.keys then w.node else Apply(w.node, KeyAdd(key));
      var (v, outcome) := BindModel(env, w, m, app);
      v.node == Apply(a, Bind(m, app)) && (outcome == Done <==> m in w.node.bound) && outcome != NoSuchKey
  {
    hide Op;
    var key := AppKey(app, env.cdb[app]);
    HeardOp(env, w, KeyGet(key.net));
    var v := Op(env, w, KeyGet(key.net)).0;
    HeardOp(env, v, KeyAdd(key));
    var u := if key in w.node.keys then v else Op(env, v, KeyAdd(key)).0;
    HeardOp(env, u, Bind(m, app));
  }

  lemma UnbindReaches(env: Env, w: World, m: ModelRef, app: Uint16)
    requires Heard(env) && Composed(env, w.node)
    ensures var u, (c, outcome) := Apply(w.node, Unbind(m, app)), UnbindModel(env, w, m, app);
      if m !in w.node.bound then c.node == w.node && outcome == Failed
      else
        && c.node == (if !Used(u, app) && !Cut(env) && app in env.cdb
                      then Apply(u, KeyDel(AppKey(app, env.cdb[app]))) else u)
        && (outcome == NullKey <==> !Used(u, app) && !Cut(env) && app !in env.cdb)
        && (outcome == Overrun <==> !SeenUsed(env, u, app) && Cut(env))
  {
    hide Clean;
    hide Cut;
    hide Op;
    hide Used;
    hide SeenUsed;
    HeardOp(env, w, Unbind(m, app));
    if m in w.node.bound {
      CleanDeletesIffUnused(env, Op(env, w, Unbind(m, app)).0, app);
    }
  }

  lemma UsedAfterBind(n: Node, m: ModelRef, app: Uint16, x: Uint16)
    requires m in n.bound
    ensures Used(Apply(n, Bind(m, app)), x) <==> Used(n, x) || x == app
  {
    var b := Apply(n, Bind(m, app));
    assert app in b.bound[m];
    if k :| k in n.bound && x in n.bound[k] {
      assert x in b.bound[k];
    }
    if k :| k in b.bound && x in b.bound[k] && x != app {
      assert x in n.bound[k];
    }
  }

  lemma BindKeepsExact(env: Env, w: World, m: ModelRef, app: Uint16)
    requires Heard(env) && Exact(env, w.node) && m in w.node.bound
    ensures Exact(env, BindModel(env, w, m, app).0.node)
  {
    hide BindModel;
    if app in env.cdb {
      var n := w.node;
      var key := AppKey(app, env.cdb[app]);
      BindReaches(env, w, m, app);
      var a := if key in n.keys then n else Apply(n, KeyAdd(key));
      var b := Apply(a, Bind(m, app));
      assert Stored(n, app) <==> key in n.keys;
      forall x: Uint16 ensures Stored(b, x) <==> Stored(n, x) || x == app {
        StoredAfterAdd(n, key, x);
      }
      forall x: Uint16 ensures Used(b, x) <==> Used(n, x) || x == app {
        UsedAfterBind(a, m, app, x);
      }
    } else {
      UnknownKeyIsRefused(env, w, m, app);
    }
  }

  lemma UnknownKeyIsRefused(env: Env, w: World, m: ModelRef, app: Uint16)
    requires app !in env.cdb
    ensures BindModel(env, w, m, app) == (w, NoSuchKey)
  {
  }

  lemma UsedAfterUnbind(n: Node, m: ModelRef, app: Uint16, x: Uint16)
    requires x != app
    ensures Used(Apply(n, Unbind(m, app)), x) <==> Used(n, x)
  {
    var b := Apply(n, Unbind(m, app));
    if k :| k in n.bound && x in n.bound[k] {
      assert x in b.bound[k];
    }
    if k :| k in b.bound && x in b.bound[k] {
      assert x in n.bound[k];
    }
  }

  lemma OnRecord(env: Env, n: Node, app: Uint16)
    requires forall k | k in n.keys :: k.app in env.cdb && env.cdb[k.app] == k.net
    ensures Stored(n, app) <==> app in env.cdb && AppKey(app, env.cdb[app]) in n.keys
  {
    assert forall i | 0 <= i < |n.keys| :: n.keys[i] in n.keys;
  }

  lemma UsedByBound(a: Node, b: Node, app: Uint16)
    requires a.bound == b.bound
    ensures Used(a, app) <==> Used(b, app)
  {
  }

  lemma UsedBeforeUnbind(n: Node, m: ModelRef, app: Uint16, x: Uint16)
    ensures Used(Apply(n, Unbind(m, app)), x) ==> Used(n, x)
  {
    var u := Apply(n, Unbind(m, app));
    if k :| k in u.bound && x in u.bound[k] {
      assert x in n.bound[k];
    }
  }

  lemma KeptExactly(env: Env, n: Node, c: Node, app: Uint16, x: Uint16)
    requires forall k | k in n.keys :: k.app in env.cdb && env.cdb[k.app] == k.net
    requires c.keys == n.keys || (app in env.cdb && c.keys == Without(n.keys, AppKey(app, env.cdb[app])))
    ensures c.keys == n.keys || x != app ==> (Stored(c, x) <==> Stored(n, x))
    ensures c.keys != n.keys ==> !Stored(c, app)
  {
    if i :| 0 <= i < |n.keys| && n.keys[i].app == x && x != app {
      assert n.keys[i] in c.keys;
    }
    if i :| 0 <= i < |c.keys| && c.keys[i].app == x {
      assert c.keys[i] in n.keys;
    }
    if c.keys != n.keys {
      assert forall k | k in c.keys :: k in n.keys && k != AppKey(app, env.cdb[app]);
      NotStored(c, app);
    }
  }

  /** `m` is the only model that uses the key. */
  ghost predicate SoleUser(n: Node, m: ModelRef, app: Uint16) {
    app in Bound(n, m) && forall k | k in n.bound && k != m :: app !in n.bound[k]
  }

  lemma SoleUserGone(n: Node, m: ModelRef, app: Uint16)
    requires m in n.bound
    ensures !Used(Apply(n, Unbind(m, app)), app) && Used(n, app) <==> SoleUser(n, m, app)
  {
    var u := Apply(n, Unbind(m, app));
    assert app !in u.bound[m];
    assert forall k | k in n.bound && k != m :: u.bound[k] == n.bound[k];
  }

  /** Unbinding keeps the node exact exactly when the buffer holds the composition data, or the key
      stays in use, or was not in use before: a collector that runs over the end of the buffer
      leaves the key where it is. */
  lemma UnbindKeepsExactIff(env: Env, w: World, m: ModelRef, app: Uint16)
    requires Heard(env) && Composed(env, w.node) && Exact(env, w.node)
    ensures Exact(env, UnbindModel(env, w, m, app).0.node) <==> !(Cut(env) && SoleUser(w.node, m, app))
  {
    hide Used;
    hide SoleUser;
    hide UnbindModel;
    hide Cut;
    var n, c := w.node, UnbindModel(env, w, m, app).0.node;
    UnbindReaches(env, w, m, app);
    OnRecord(env, n, app);
    hide Stored;
    hide Without;
    if m in n.bound {
      SoleUserGone(n, m, app);
      forall x: Uint16
        ensures (Stored(c, x) <==> Used(c, x)) <==> x != app || !(Cut(env) && SoleUser(n, m, app))
      {
        if x != app {
          UsedAfterUnbind(n, m, app, x);
        }
        UsedBeforeUnbind(n, m, app, x);
        UsedByBound(c, Apply(n, Unbind(m, app)), x);
        KeptExactly(env, n, c, app, x);
      }
      assert Exact(env, c) ==> (Stored(c, app) <==> Used(c, app));
    } else {
      NoUserAtAll(n, m, app);
    }
  }

  lemma NoUserAtAll(n: Node, m: ModelRef, app: Uint16)
    requires m !in n.bound
    ensures !SoleUser(n, m, app)
  {
  }

  /** Binding keeps the node exact exactly when the node has the model, the database lacks the
      key, or the key is stored already: the key is added before the bind, and stays when the
      node refuses the model. */
  lemma BindKeepsExactIff(env: Env, w: World, m: ModelRef, app: Uint16)
    requires Heard(env) && Exact(env, w.node)
    ensures Exact(env, BindModel(env, w, m, app).0.node) <==>
            m in w.node.bound || app !in env.cdb || Stored(w.node, app)
  {
    hide BindModel;
    if app !in env.cdb {
      UnknownKeyIsRefused(env, w, m, app);
    } else if m in w.node.bound {
      BindKeepsExact(env, w, m, app);
    } else {
      var n := w.node;
      var key := AppKey(app, env.cdb[app]);
      BindReaches(env, w, m, app);
      OnRecord(env, n, app);
      StoredAfterAdd(n, key, app);
      UsedByBound(Apply(n, KeyAdd(key)), n, app);
    }
  }

  // ---------------------------------------------------------------- runs

  /** A command that leaves no unused key behind: a bind of a model the node has, of a key the
      database lacks, or of a key that is stored; an unbind after which the collector is not
      needed, or can read the composition data to its end. */
  ghost predicate Proper(env: Env, w: World, c: Command) {
    if c.BindCmd? then c.model in w.node.bound || c.app !in env.cdb || Stored(w.node, c.app)
    else !(Cut(env) && SoleUser(w.node, c.model, c.app))
  }

  lemma CommandKeepsExactIff(env: Env, w: World, c: Command)
    requires Heard(env) && Composed(env, w.node) && Exact(env, w.node)
    ensures Exact(env, Execute(env, w, c).0.node) <==> Proper(env, w, c)
  {
    hide Exact;
    hide Cut;
    hide SoleUser;
    hide BindModel;
    hide UnbindModel;
    if c.BindCmd? {
      BindKeepsExactIff(env, w, c.model, c.app);
    } else {
      UnbindKeepsExactIff(env, w, c.model, c.app);
    }
  }

  /** The node is exact after each command of a run. */
  ghost predicate ExactThroughout(env: Env, w: World, cs: seq<Command>)
    decreases |cs|
  {
    Exact(env, w.node) && (cs == [] || ExactThroughout(env, Execute(env, w, cs[0]).0, cs[1..]))
  }

  ghost predicate ProperRun(env: Env, w: World, cs: seq<Command>)
    decreases |cs|
  {
    cs == [] || (Proper(env, w, cs[0]) && ProperRun(env, Execute(env, w, cs[0]).0, cs[1..]))
  }

  /** In a run in which every request gets through, after whatever losses, the stored keys are at
      every point exactly the bound ones, if and only if every command is proper. */
  lemma {:induction false} HeardRunsAreExactIff(env: Env, w: World, cs: seq<Command>)
    requires Heard(env) && Composed(env, w.node) && Exact(env, w.node)
    ensures ExactThroughout(env, w, cs) <==> ProperRun(env, w, cs)
    decreases |cs|
  {
    hide Proper;
    hide Exact;
    hide Execute;
    hide Heard;
    if cs != [] {
      CommandKeepsExactIff(env, w, cs[0]);
      CommandKeepsModels(env, w, cs[0]);
      if Proper(env, w, cs[0]) {
        HeardRunsAreExactIff(env, Execute(env, w, cs[0]).0, cs[1..]);
      }
    }
  }

  /** A node on which nothing has been stored or bound. */
  function FreshNode(env: Env): Node {
    Node([], map m | m in Models(env) :: [])
  }

  lemma FreshRunsAreExactIff(env: Env, cs: seq<Command>)
    requires Heard(env)
    ensures ExactThroughout(env, World(FreshNode(env), 0), cs) <==> ProperRun(env, World(FreshNode(env), 0), cs)
  {
    HeardRunsAreExactIff(env, World(FreshNode(env), 0), cs);
  }

  // ---------------------------------------------------------------- how it goes wrong

  /** Binding a known key to a model the node does not have stores a key nobody uses. */
  lemma AbsentModelLeavesKey(env: Env, m: ModelRef, app: Uint16)
    requires Heard(env) && m !in Models(env) && app in env.cdb
    ensures var (v, outcome) := BindModel(env, World(FreshNode(env), 0), m, app);
            outcome == Failed && Stored(v.node, app) && !Used(v.node, app)
  {
    var w := World(FreshNode(env), 0);
    var key := AppKey(app, env.cdb[app]);
    BindOutcome(env, w, m, app);
    BindReaches(env, w, m, app);
    hide BindModel;
    StoredAfterAdd(w.node, key, app);
  }

  /** Unbinding a key the database does not know crashes on a null pointer if the composition data
      fits the buffer, and if it does not, the walk runs over its end. */
  lemma FirstUnbindCrashes(env: Env, m: ModelRef, app: Uint16)
    requires Heard(env) && m in Models(env) && (Cut(env) || app !in env.cdb)
    ensures UnbindModel(env, World(FreshNode(env), 0), m, app).1 == if Cut(env) then Overrun else NullKey
  {
    var w := World(FreshNode(env), 0);
    UnbindReaches(env, w, m, app);
    hide UnbindModel;
    hide Cut;
    var u := Apply(w.node, Unbind(m, app));
    assert forall k | k in u.bound :: u.bound[k] == [];
  }

  const APP: Uint16 := 7
  const KEY := AppKey(APP, 0)
  const FIRST := ModelRef(1, Sig(5))
  const SECOND := ModelRef(1, Sig(6))

  /** A node with one element and two models, and a gateway that knows one key. All attempts but
      the t-th are answered. */
  function Small(t: nat, fate: Fate): Env {
    Env(seq(HEADER_LEN, _ => 0), [Element(0, [FIRST.id, SECOND.id], [])], 1, map[APP := 0],
        x => if x == t then fate else Answered)
  }

  lemma SmallModels(t: nat, fate: Fate)
    ensures var env := Small(t, fate); Models(env) == Visible(env) == [FIRST, SECOND] && !Cut(env)
  {
    var env := Small(t, fate);
    var e := env.elems[0];
    assert EncodeIds(e.sig[1..][1..]) == [] && |EncodeIds(e.sig[1..])| == 2 && |EncodeIds(e.sig)| == 4;
    assert ModelsFrom(env, 1) == [] && SizeFrom(env, 1) == 0;
    assert RefsOf(1, e.sig[1..]) == [SECOND];
    WholeIsVisible(env);
  }

  lemma AnsweredOp(env: Env, w: World, r: Request)
    requires env.fate(w.time) == Answered
    ensures Op(env, w, r) == (World(Apply(w.node, r), w.time + 1), Answer(w.node, r))
  {
  }

  /** A node with these keys and these bindings of the two models. */
  function Two(keys: seq<AppKey>, first: seq<Uint16>, second: seq<Uint16>): Node {
    Node(keys, map[FIRST := first, SECOND := second])
  }

  lemma TwoModels(keys: seq<AppKey>, first: seq<Uint16>, second: seq<Uint16>)
    ensures var n := Two(keys, first, second);
      && FIRST in n.bound && SECOND in n.bound && Bound(n, FIRST) == first && Bound(n, SECOND) == second
      && (Used(n, APP) <==> APP in first || APP in second)
      && Apply(n, Bind(FIRST, APP)) == Two(keys, AddTo(first, APP), second)
      && Apply(n, Bind(SECOND, APP)) == Two(keys, first, AddTo(second, APP))
      && Apply(n, Unbind(FIRST, APP)) == Two(keys, Without(first, APP), second)
  {
    TwoUpdates(keys, first, second, AddTo(first, APP));
    TwoUpdates(keys, first, second, AddTo(second, APP));
    TwoUpdates(keys, first, second, Without(first, APP));
    hide AddTo;
    hide Without;
  }

  lemma TwoUpdates(keys: seq<AppKey>, first: seq<Uint16>, second: seq<Uint16>, apps: seq<Uint16>)
    ensures var n := Two(keys, first, second);
      && n.bound[FIRST := apps] == Two(keys, apps, second).bound
      && n.bound[SECOND := apps] == Two(keys, first, apps).bound
  {
  }

  lemma OneKey()
    ensures AddTo<Uint16>([], APP) == [APP] && Without([APP], APP) == [] && Without([KEY], KEY) == []
    ensures AppsUnder([KEY], 0) == [APP]
  {
  }

  lemma BindTakesThree(t: nat, fate: Fate)
    requires t > 2
    ensures BindModel(Small(t, fate), World(Two([], [], []), 0), FIRST, APP) == (World(Two([KEY], [APP], []), 3), Done)
  {
    var env, n, a := Small(t, fate), Two([], [], []), Two([KEY], [], []);
    TwoModels([KEY], [], []);
    OneKey();
    AnsweredOp(env, World(n, 0), KeyGet(0));
    AnsweredOp(env, World(n, 1), KeyAdd(KEY));
    AnsweredOp(env, World(a, 2), Bind(FIRST, APP));
    hide Op;
    assert Apply(n, KeyAdd(KEY)) == a;
    hide Two;
  }

  lemma BindTakesTwo(t: nat, fate: Fate)
    requires t > 4
    ensures BindModel(Small(t, fate), World(Two([KEY], [APP], []), 3), SECOND, APP) ==
            (World(Two([KEY], [APP], [APP]), 5), Done)
  {
    var env, n := Small(t, fate), Two([KEY], [APP], []);
    TwoModels([KEY], [APP], []);
    OneKey();
    AnsweredOp(env, World(n, 3), KeyGet(0));
    AnsweredOp(env, World(n, 4), Bind(SECOND, APP));
    hide Op;
  }

  /** The two models answer one query each, the second perhaps with a refusal. */
  lemma ScanTakesTwo(env: Env, n: Node, t: nat)
    requires FIRST in n.bound && SECOND in n.bound
    requires env.fate(t) == Answered && APP !in Bound(n, FIRST)
    requires if APP in Bound(n, SECOND) then env.fate(t + 1) == Blank(1) else env.fate(t + 1) == Answered
    ensures Scan(env, World(n, t), [FIRST, SECOND], APP) == (World(n, t + 2), Unused)
  {
    var rest := [FIRST, SECOND][1..];
    assert rest == [SECOND] && rest[1..] == [];
    AnsweredOp(env, World(n, t), ModelGet(FIRST));
    AnsweredOrRefused(env, World(n, t + 1), ModelGet(SECOND));
    hide Op;
    assert Scan(env, World(n, t + 2), rest[1..], APP) == (World(n, t + 2), Unused);
    assert Scan(env, World(n, t + 1), rest, APP) == (World(n, t + 2), Unused);
  }

  /** An attempt that is answered or refused is the last one. */
  lemma AnsweredOrRefused(env: Env, w: World, r: Request)
    requires !Unanswered(env, w.time)
    ensures var (n, reply) := Attempt(w.node, r, env.fate(w.time)); Op(env, w, r) == (World(n, w.time + 1), reply)
  {
  }

  lemma UnbindTakesTwo(env: Env, keys: seq<AppKey>, second: seq<Uint16>, t: nat)
    requires env.fate(t) == Answered && env.fate(t + 1) == Answered
    ensures var n, u := Two(keys, [APP], second), Two(keys, [], second);
      && Op(env, World(n, t), Unbind(FIRST, APP)) == (World(u, t + 1), Got(0, []))
      && Op(env, World(u, t + 1), CompGet) == (World(u, t + 2), Got(0, []))
  {
    var n, u := Two(keys, [APP], second), Two(keys, [], second);
    OneKey();
    TwoModels(keys, [APP], second);
    AnsweredOp(env, World(n, t), Unbind(FIRST, APP));
    AnsweredOp(env, World(u, t + 1), CompGet);
    hide Op;
    hide Two;
  }

  /** An unbind whose collector finds no use, step by step. */
  lemma UnbindInSteps(env: Env, n: Node, u: Node, x: Node, t: nat, del: Reply)
    requires !Cut(env) && APP in env.cdb && env.cdb[APP] == 0 && del.Got?
    requires Op(env, World(n, t), Unbind(FIRST, APP)) == (World(u, t + 1), Got(0, []))
    requires Op(env, World(u, t + 1), CompGet) == (World(u, t + 2), Got(0, []))
    requires Scan(env, World(u, t + 2), Visible(env), APP) == (World(u, t + 4), Unused)
    requires Op(env, World(u, t + 4), KeyDel(KEY)) == (World(x, t + 5), del)
    ensures UnbindModel(env, World(n, t), FIRST, APP) == (World(x, t + 5), Done)
  {
    hide Op;
    hide Scan;
    hide Cut;
    hide Visible;
  }

  lemma UnbindLoses()
    ensures UnbindModel(Small(8, Blank(1)), World(Two([KEY], [APP], [APP]), 5), FIRST, APP).0.node == Two([], [], [APP])
  {
    var env, n, u := Small(8, Blank(1)), Two([KEY], [APP], [APP]), Two([KEY], [], [APP]);
    SmallModels(8, Blank(1));
    OneKey();
    UnbindTakesTwo(env, [KEY], [APP], 5);
    ScanTakesTwo(env, u, 7);
    AnsweredOp(env, World(u, 9), KeyDel(KEY));
    hide Visible;
    hide Models;
    hide Op;
    hide Scan;
    UnbindInSteps(env, n, u, Two([], [], [APP]), 5, Got(0, []));
  }

  /** A refused model query makes the collector delete a key that is still bound: the key is bound
      to two models and unbound from the first, and the second refuses to say that it uses it. */
  lemma LosesKeyIsReached()
    ensures var env := Small(8, Blank(1));
      var v := Run(env, World(FreshNode(env), 0), [BindCmd(FIRST, APP), BindCmd(SECOND, APP), UnbindCmd(FIRST, APP)]);
      Used(v.node, APP) && !Stored(v.node, APP)
  {
    var env := Small(8, Blank(1));
    BindTakesThree(8, Blank(1));
    BindTakesTwo(8, Blank(1));
    UnbindLoses();
    TwoModels([], [], [APP]);
    FreshSmall(8, Blank(1));
    hide BindModel;
    hide UnbindModel;
    hide Two;
    hide Small;
    hide FreshNode;
    var c := UnbindCmd(FIRST, APP);
    RunCons(env, World(FreshNode(env), 0), BindCmd(FIRST, APP), [BindCmd(SECOND, APP), c]);
    RunCons(env, World(Two([KEY], [APP], []), 3), BindCmd(SECOND, APP), [c]);
    RunCons(env, World(Two([KEY], [APP], [APP]), 5), c, []);
    assert [BindCmd(FIRST, APP)] + ([BindCmd(SECOND, APP)] + ([c] + [])) == [BindCmd(FIRST, APP), BindCmd(SECOND, APP), c];
    assert [BindCmd(SECOND, APP)] + [c] == [BindCmd(SECOND, APP), c] && [c] + [] == [c];
    NothingStored([], [], [APP]);
  }

  lemma NothingStored(keys: seq<AppKey>, first: seq<Uint16>, second: seq<Uint16>)
    requires keys == []
    ensures !Stored(Two(keys, first, second), APP)
  {
  }

  lemma FreshSmall(t: nat, fate: Fate)
    ensures FreshNode(Small(t, fate)) == Two([], [], [])
  {
    SmallModels(t, fate);
    hide Models;
    assert FreshNode(Small(t, fate)).bound == Two([], [], []).bound;
  }

  lemma RunCons(env: Env, w: World, c: Command, cs: seq<Command>)
    ensures Run(env, w, [c] + cs) == Run(env, Execute(env, w, c).0, cs)
    ensures Run(env, w, []) == w
  {
  }

  lemma UnbindKeepsKey()
    ensures UnbindModel(Small(7, Refused(1)), World(Two([KEY], [APP], []), 3), FIRST, APP) ==
            (World(Two([KEY], [], []), 8), Done)
  {
    var env, n, u := Small(7, Refused(1)), Two([KEY], [APP], []), Two([KEY], [], []);
    SmallModels(7, Refused(1));
    OneKey();
    UnbindTakesTwo(env, [KEY], [], 3);
    ScanTakesTwo(env, u, 5);
    AnsweredOrRefused(env, World(u, 7), KeyDel(KEY));
    hide Visible;
    hide Models;
    hide Op;
    hide Scan;
    UnbindInSteps(env, n, u, u, 3, Got(1, []));
  }

  /** A refused deletion is reported as success: the key was bound and unbound again, the collector
      is done, and the key is still there. */
  lemma RefusedDeletionIsReached()
    ensures var env := Small(7, Refused(1));
      var w := Run(env, World(FreshNode(env), 0), [BindCmd(FIRST, APP)]);
      var (v, outcome) := UnbindModel(env, w, FIRST, APP);
      outcome == Done && Stored(v.node, APP) && !Used(v.node, APP)
  {
    var env := Small(7, Refused(1));
    BindTakesThree(7, Refused(1));
    FreshSmall(7, Refused(1));
    UnbindKeepsKey();
    TwoModels([KEY], [], []);
    hide UnbindModel;
    hide BindModel;
    hide FreshNode;
    hide Small;
    RunCons(env, World(FreshNode(env), 0), BindCmd(FIRST, APP), []);
    RunCons(env, World(Two([KEY], [APP], []), 3), BindCmd(FIRST, APP), []);
    assert [BindCmd(FIRST, APP)] + [] == [BindCmd(FIRST, APP)];
    assert Two([KEY], [], []).keys[0].app == APP;
  }
}
